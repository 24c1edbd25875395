/**
 * Printing and reading are inverse up to the normal form. Consequences: equal
 * canonical text is exactly `deepEqual`, and a hash of canonical text commits
 * to the normal form of the value and to nothing more.
 */
module JsonRoundTrip {
  import opened Wrappers
  import opened Ordering
  import opened Json
  import opened JsonText

  /** Numbers the host can hold: those the rounding step leaves alone. */
  ghost predicate Held(v: Json, round: Number -> Number) {
    match v
    case Num(x) => !x.Infinite? ==> round(HeldNumber(x)) == HeldNumber(x)
    case Arr(items) => forall i | 0 <= i < |items| :: Held(items[i], round)
    case Obj(ms) => forall i | 0 <= i < |ms| :: Held(ms[i].value, round)
    case _ => true
  }

  function HeldNumber(x: Number): Number {
    if x.Zero? then Zero(false) else x
  }

  /** What may follow a complete value: nothing, or the punctuation of a container. */
  predicate Ends(rest: Text) {
    rest == [] || rest[0] == COMMA || rest[0] == RBRACKET || rest[0] == RBRACE
  }

  predicate NoDigit(rest: Text) { rest == [] || !IsDigit(rest[0]) }

  // ----------------------------------------------------------- concatenation

  lemma {:induction false} Assoc<E>(a: seq<E>, b: seq<E>, c: seq<E>)
    ensures a + b + c == a + (b + c)
  {}

  lemma {:induction false} Tail<E>(x: E, s: seq<E>)
    ensures ([x] + s)[1..] == s && ([x] + s)[0] == x
  {}

  // ---------------------------------------------------------------- numbers

  lemma {:induction false} SplitPrinted(d: seq<Digit>, rest: Text)
    requires NoDigit(rest)
    ensures SplitDigits(DigitText(d) + rest) == (d, rest)
  {
    var s := DigitText(d) + rest;
    if d == [] {
      assert s == rest;
    } else {
      assert s[1..] == DigitText(d[1..]) + rest;
      SplitPrinted(d[1..], rest);
      assert d == [d[0]] + d[1..];
    }
  }

  lemma {:induction false} NatDigitsValue(n: nat)
    ensures DigitsValue(NatDigits(n)) == n
  {
    if n >= 10 {
      NatDigitsValue(n / 10);
      var d := NatDigits(n);
      assert d[..|d| - 1] == NatDigits(n / 10);
    } else {
      assert NatDigits(n)[..0] == [];
    }
  }

  lemma {:induction false} DropLeadingZeros(neg: bool, k: nat, d: seq<Digit>, p: int)
    ensures Normalize(neg, Zeros(k) + d, p) == Normalize(neg, d, p - k)
  {
    var z := Zeros(k) + d;
    if k == 0 {
      assert z == d;
    } else {
      assert z[1..] == Zeros(k - 1) + d;
      DropLeadingZeros(neg, k - 1, d, p - 1);
    }
  }

  lemma {:induction false} DropTrailingZeros(neg: bool, d: seq<Digit>, k: nat, p: int)
    requires d != [] && d[0] != 0
    ensures Normalize(neg, d + Zeros(k), p) == Normalize(neg, d, p)
  {
    var z := d + Zeros(k);
    if k == 0 {
      assert z == d;
    } else {
      assert z[..|z| - 1] == d + Zeros(k - 1);
      DropTrailingZeros(neg, d, k - 1, p);
    }
  }

  function SignText(neg: bool): Text { if neg then [MINUS] else [] }
  function FractionText(d: seq<Digit>): Text { if d == [] then [] else [DOT] + DigitText(d) }

  predicate AfterDigits(rest: Text) { NoDigit(rest) && !StartsWith(rest, DOT) }

  lemma {:induction false} FractionReads(d: seq<Digit>, rest: Text)
    requires AfterDigits(rest)
    ensures ParseFraction(FractionText(d) + rest) == Read(d, rest)
    ensures NoDigit(FractionText(d) + rest)
  {
    if d == [] {
      assert FractionText(d) + rest == rest;
    } else {
      Assoc([DOT], DigitText(d), rest);
      Tail(DOT, DigitText(d) + rest);
      SplitPrinted(d, rest);
    }
  }

  /** The parts of a number literal, put together by ParseNumber. */
  lemma {:induction false} NumberFromParts(neg: bool, whole: seq<Digit>, frac: seq<Digit>, tail: Text, e: int, rest: Text)
    requires whole != [] && (|whole| > 1 ==> whole[0] != 0)
    requires AfterDigits(tail) && ParseExponent(tail) == Read(e, rest)
    ensures |rest| <= |tail|
    ensures ParseNumber(SignText(neg) + (DigitText(whole) + (FractionText(frac) + tail)))
         == Read(Normalize(neg, whole + frac, |whole| + e), rest)
  {
    var body := DigitText(whole) + (FractionText(frac) + tail);
    FractionReads(frac, tail);
    SplitPrinted(whole, FractionText(frac) + tail);
    FinishReads(neg, whole, frac, tail, e, rest);
    SignReads(neg, body);
  }

  lemma {:induction false} FinishReads(neg: bool, whole: seq<Digit>, frac: seq<Digit>, tail: Text, e: int, rest: Text)
    requires ParseFraction(FractionText(frac) + tail) == Read(frac, tail) && ParseExponent(tail) == Read(e, rest)
    ensures FinishNumber(neg, whole, FractionText(frac) + tail) == Read(Normalize(neg, whole + frac, |whole| + e), rest)
  {
    FinishOf(neg, whole, FractionText(frac) + tail, frac, tail, e, rest);
  }

  lemma {:induction false} FinishOf(neg: bool, whole: seq<Digit>, s: Text, frac: seq<Digit>, tail: Text, e: int, rest: Text)
    requires ParseFraction(s) == Read(frac, tail) && ParseExponent(tail) == Read(e, rest)
    ensures FinishNumber(neg, whole, s) == Read(Normalize(neg, whole + frac, |whole| + e), rest)
  {}

  lemma {:induction false} SignReads(neg: bool, body: Text)
    requires !StartsWith(body, MINUS)
    ensures ParseNumber(SignText(neg) + body) == ParseUnsigned(neg, body)
  {
    if neg { Tail(MINUS, body); } else { assert SignText(neg) + body == body; }
  }

  function ExponentText(n: int): Text {
    [LOWER_E] + (if n < 0 then [MINUS] + DigitText(NatDigits(-n)) else [PLUS] + DigitText(NatDigits(n)))
  }

  lemma {:induction false} ExponentReads(n: int, rest: Text)
    requires Ends(rest)
    ensures ParseExponent(ExponentText(n) + rest) == Read(n, rest)
  {
    var m := if n < 0 then -n else n;
    NatDigitsValue(m);
    SignedExponentReads(if n < 0 then MINUS else PLUS, NatDigits(m), rest);
  }

  lemma {:induction false} SignedExponentReads(sign: Unit, d: seq<Digit>, rest: Text)
    requires (sign == PLUS || sign == MINUS) && d != [] && NoDigit(rest)
    ensures ParseExponent([LOWER_E] + ([sign] + DigitText(d)) + rest)
         == Read(if sign == MINUS then -(DigitsValue(d) as int) else DigitsValue(d), rest)
  {
    Assoc([LOWER_E], [sign] + DigitText(d), rest);
    Assoc([sign], DigitText(d), rest);
    TwoUnits(LOWER_E, sign, DigitText(d) + rest);
    SplitPrinted(d, rest);
  }

  lemma {:induction false} TwoUnits(x: Unit, y: Unit, s: Text)
    ensures var t := [x] + ([y] + s); t != [] && t[0] == x && t[1..] == [y] + s && t[1..][0] == y && t[2..] == s
  {
    assert ([x] + ([y] + s))[1..][1..] == s;
  }

  lemma {:induction false} NumberReads(x: Number, rest: Text)
    requires !x.Infinite? && Ends(rest)
    ensures ParseNumber(NumberText(x) + rest) == Read(HeldNumber(x), rest)
  {
    match x {
      case Zero(_) =>
        PlainNumberReads(false, [0], [], rest);
        assert SignText(false) + (DigitText([0]) + (FractionText([]) + rest)) == NumberText(x) + rest;
        assert [0] + [] == Zeros(1) + [];
        DropLeadingZeros(false, 1, [], 1);
      case Decimal(neg, d, n) =>
        Assoc(SignText(neg), MagnitudeText(d, n), rest);
        MagnitudeReads(neg, d, n, rest);
    }
  }

  lemma {:induction false} PlainNumberReads(neg: bool, whole: seq<Digit>, frac: seq<Digit>, rest: Text)
    requires whole != [] && (|whole| > 1 ==> whole[0] != 0) && Ends(rest)
    ensures ParseNumber(SignText(neg) + (DigitText(whole) + (FractionText(frac) + rest)))
         == Read(Normalize(neg, whole + frac, |whole|), rest)
  {
    NumberFromParts(neg, whole, frac, rest, 0, rest);
  }

  lemma {:induction false} MagnitudeReads(neg: bool, d: seq<Digit>, n: int, rest: Text)
    requires d != [] && d[0] != 0 && d[|d| - 1] != 0 && Ends(rest)
    ensures ParseNumber(SignText(neg) + (MagnitudeText(d, n) + rest)) == Read(Decimal(neg, d, n), rest)
  {
    if |d| <= n <= 21 {
      IntegerReads(neg, d, n, rest);
    } else if 0 < n <= 21 {
      MixedReads(neg, d, n, rest);
    } else if -6 < n <= 0 {
      SmallNumberReads(neg, d, n, rest);
    } else {
      ExponentNumberReads(neg, d, n, rest);
    }
  }

  lemma {:induction false} IntegerReads(neg: bool, d: seq<Digit>, n: int, rest: Text)
    requires d != [] && d[0] != 0 && d[|d| - 1] != 0 && Ends(rest) && |d| <= n <= 21
    ensures ParseNumber(SignText(neg) + (MagnitudeText(d, n) + rest)) == Read(Decimal(neg, d, n), rest)
  {
    var whole := d + Zeros(n - |d|);
    PlainNumberReads(neg, whole, [], rest);
    assert FractionText([]) + rest == rest;
    assert whole + [] == whole;
    DropTrailingZeros(neg, d, n - |d|, n);
  }

  lemma {:induction false} MixedReads(neg: bool, d: seq<Digit>, n: int, rest: Text)
    requires d != [] && d[0] != 0 && d[|d| - 1] != 0 && Ends(rest) && 0 < n < |d| && n <= 21
    ensures ParseNumber(SignText(neg) + (MagnitudeText(d, n) + rest)) == Read(Decimal(neg, d, n), rest)
  {
    PlainNumberReads(neg, d[..n], d[n..], rest);
    Assoc(DigitText(d[..n]), [DOT] + DigitText(d[n..]), rest);
    Assoc(DigitText(d[..n]), [DOT], DigitText(d[n..]));
    assert d[..n] + d[n..] == d;
  }

  lemma {:induction false} SmallFormSplits(d: seq<Digit>, n: int, rest: Text)
    requires d != [] && -6 < n <= 0
    ensures MagnitudeText(d, n) + rest == DigitText([0]) + (FractionText(Zeros(-n) + d) + rest)
  {
    var frac := Zeros(-n) + d;
    Assoc(DigitText([0]), [DOT] + DigitText(frac), rest);
    Assoc(DigitText([0]), [DOT], DigitText(frac));
  }

  lemma {:induction false} SmallNormalizes(neg: bool, d: seq<Digit>, n: int)
    requires d != [] && d[0] != 0 && d[|d| - 1] != 0 && n <= 0
    ensures Normalize(neg, [0] + (Zeros(-n) + d), 1) == Decimal(neg, d, n)
  {
    assert [0] + (Zeros(-n) + d) == Zeros(1 - n) + d;
    DropLeadingZeros(neg, 1 - n, d, 1);
  }

  /** A plain number whose text and value are known reads as that value. */
  lemma {:induction false} SplitReads(neg: bool, whole: seq<Digit>, frac: seq<Digit>, text: Text, x: Number, rest: Text)
    requires whole != [] && (|whole| > 1 ==> whole[0] != 0) && Ends(rest)
    requires text + rest == DigitText(whole) + (FractionText(frac) + rest) && Normalize(neg, whole + frac, |whole|) == x
    ensures ParseNumber(SignText(neg) + (text + rest)) == Read(x, rest)
  {
    PlainNumberReads(neg, whole, frac, rest);
  }

  lemma {:induction false} SmallNumberReads(neg: bool, d: seq<Digit>, n: int, rest: Text)
    requires d != [] && d[0] != 0 && d[|d| - 1] != 0 && Ends(rest) && -6 < n <= 0
    ensures ParseNumber(SignText(neg) + (MagnitudeText(d, n) + rest)) == Read(Decimal(neg, d, n), rest)
  {
    SmallFormSplits(d, n, rest);
    SmallNormalizes(neg, d, n);
    SplitReads(neg, [0], Zeros(-n) + d, MagnitudeText(d, n), Decimal(neg, d, n), rest);
  }

  lemma {:induction false} ExponentNumberReads(neg: bool, d: seq<Digit>, n: int, rest: Text)
    requires d != [] && d[0] != 0 && d[|d| - 1] != 0 && Ends(rest)
    requires !(|d| <= n <= 21) && !(0 < n <= 21) && !(-6 < n <= 0)
    ensures ParseNumber(SignText(neg) + (MagnitudeText(d, n) + rest)) == Read(Decimal(neg, d, n), rest)
  {
    ExponentFormSplits(d, n, rest);
    ExponentPartsRead(neg, d, n, rest);
  }

  lemma {:induction false} ExponentPartsRead(neg: bool, d: seq<Digit>, n: int, rest: Text)
    requires d != [] && d[0] != 0 && d[|d| - 1] != 0 && Ends(rest)
    ensures ParseNumber(SignText(neg) + (DigitText(d[..1]) + (FractionText(d[1..]) + (ExponentText(n - 1) + rest))))
         == Read(Decimal(neg, d, n), rest)
  {
    var tail := ExponentText(n - 1) + rest;
    ExponentReads(n - 1, rest);
    assert AfterDigits(tail);
    NumberFromParts(neg, d[..1], d[1..], tail, n - 1, rest);
    assert d[..1] + d[1..] == d;
  }

  lemma {:induction false} ExponentFormSplits(d: seq<Digit>, n: int, rest: Text)
    requires d != [] && !(|d| <= n <= 21) && !(0 < n <= 21) && !(-6 < n <= 0)
    ensures MagnitudeText(d, n) + rest == DigitText(d[..1]) + (FractionText(d[1..]) + (ExponentText(n - 1) + rest))
  {
    assert -(n - 1) == 1 - n;
    var head := DigitText(d[..1]) + FractionText(d[1..]);
    var sign := if n - 1 < 0 then [MINUS] + DigitText(NatDigits(1 - n)) else [PLUS] + DigitText(NatDigits(n - 1));
    Assoc(head, [LOWER_E], sign);
    Assoc(head, ExponentText(n - 1), rest);
    Assoc(DigitText(d[..1]), FractionText(d[1..]), ExponentText(n - 1) + rest);
  }

  // ---------------------------------------------------------------- strings

  lemma {:induction false} HexUnitValue(h: int)
    requires 0 <= h < 16
    ensures HexValue(HexUnit(h)) == h
  {}

  lemma {:induction false} UnicodeEscapeReads(u: Unit)
    ensures var q := UnicodeEscape(u); HexQuad(q[2], q[3], q[4], q[5]) == u as int
  {
    var n := u as int;
    HexUnitValue(n / 4096);
    HexUnitValue(n / 256 % 16);
    HexUnitValue(n / 16 % 16);
    HexUnitValue(n % 16);
    HexDigits(n);
  }

  lemma {:induction false} HexDigits(n: nat)
    ensures n == n / 4096 * 4096 + n / 256 % 16 * 256 + n / 16 % 16 * 16 + n % 16
  {
    assert n / 16 / 16 == n / 256 && n / 256 / 16 == n / 4096;
  }

  lemma {:induction false} LongEscapeReads(u: Unit, more: Text)
    requires |EscapeUnit(u)| == 6
    ensures ParseChars(EscapeUnit(u) + more) == Push(u, ParseChars(more))
  {
    UnicodeEscapeReads(u);
    assert (EscapeUnit(u) + more)[6..] == more;
    assert SimpleEscape(LOWER_U) == -1;
  }

  lemma {:induction false} EscapedUnitReads(u: Unit, more: Text)
    ensures ParseChars(EscapeUnit(u) + more) == Push(u, ParseChars(more))
  {
    var s := EscapeUnit(u) + more;
    if |EscapeUnit(u)| == 6 {
      LongEscapeReads(u, more);
    } else if |EscapeUnit(u)| == 2 {
      assert s[2..] == more;
    } else {
      assert s[1..] == more;
    }
  }

  lemma {:induction false} RawUnitReads(u: Unit, more: Text)
    requires u >= 0x20 && u != QUOTE && u != BACKSLASH
    ensures ParseChars([u] + more) == Push(u, ParseChars(more))
  {
    Tail(u, more);
  }

  lemma {:induction false} PairReads(t: Text, more: Text)
    requires StartsPair(t)
    ensures ParseChars(t[..2] + more) == Push(t[0], Push(t[1], ParseChars(more)))
  {
    RawUnitReads(t[0], [t[1]] + more);
    RawUnitReads(t[1], more);
    assert t[..2] + more == [t[0]] + ([t[1]] + more);
  }

  lemma {:induction false} CharsRead(t: Text, rest: Text)
    ensures ParseChars(Escape(t) + ([QUOTE] + rest)) == Read(t, rest)
    decreases |t|
  {
    var end := [QUOTE] + rest;
    if t == [] {
      assert Escape(t) + end == end;
      Tail(QUOTE, rest);
    } else if StartsPair(t) {
      CharsRead(t[2..], rest);
      Assoc(t[..2], Escape(t[2..]), end);
      PairReads(t, Escape(t[2..]) + end);
      assert [t[0]] + ([t[1]] + t[2..]) == t;
    } else {
      CharsRead(t[1..], rest);
      Assoc(EscapeUnit(t[0]), Escape(t[1..]), end);
      EscapedUnitReads(t[0], Escape(t[1..]) + end);
      assert [t[0]] + t[1..] == t;
    }
  }

  lemma {:induction false} QuoteReads(t: Text, rest: Text)
    ensures Quote(t) + rest == [QUOTE] + (Escape(t) + ([QUOTE] + rest))
    ensures ParseChars((Quote(t) + rest)[1..]) == Read(t, rest)
  {
    CharsRead(t, rest);
    Assoc([QUOTE] + Escape(t), [QUOTE], rest);
    Assoc([QUOTE], Escape(t), [QUOTE] + rest);
    Tail(QUOTE, Escape(t) + ([QUOTE] + rest));
  }

  // ----------------------------------------------------------------- values

  /** How canonical text can begin: never with white space. */
  lemma {:induction false} FirstUnit(v: Json)
    requires v != Undefined
    ensures var s := Canonicalize(v);
            s != [] && !IsSpace(s[0]) && s[0] != RBRACKET && s[0] != RBRACE
            && (s[0] == QUOTE <==> v.Str?) && (s[0] == LBRACKET <==> v.Arr?) && (s[0] == LBRACE <==> v.Obj?)
  {
    match v {
      case Num(Decimal(neg, d, n)) =>
        assert MagnitudeText(d, n) != [] && IsDigit(MagnitudeText(d, n)[0]);
      case _ =>
    }
  }

  lemma {:induction false} SpaceThenSame(v: Json, rest: Text)
    requires v != Undefined
    ensures SkipSpace(Canonicalize(v) + rest) == Canonicalize(v) + rest
  {
    FirstUnit(v);
  }

  lemma {:induction false} WordReads(v: Json, rest: Text, round: Number -> Number)
    requires v.Null? || v.Bool?
    ensures ParseValue(Canonicalize(v) + rest, round) == Read(v, rest)
  {
    var s := Canonicalize(v) + rest;
    SpaceThenSame(v, rest);
    assert Canonicalize(v) <= s;
    assert s[|Canonicalize(v)|..] == rest;
    assert s[0] == Canonicalize(v)[0];
    if v == Bool(true) { assert T("null")[0] != s[0]; }
    if v == Bool(false) { assert T("null")[0] != s[0] && T("true")[0] != s[0]; }
    assert ParseWord(s) == Read(v, rest);
  }

  lemma {:induction false} FiniteReads(x: Number, rest: Text, round: Number -> Number)
    requires Held(Num(x), round) && Ends(rest) && !x.Infinite?
    ensures ParseValue(Canonicalize(Num(x)) + rest, round) == Read(Norm(Num(x)), rest)
  {
    NumberReads(x, rest);
    NumberStarts(x);
    NumberDispatch(NumberText(x) + rest, round);
  }

  lemma {:induction false} NumberDispatch(s: Text, round: Number -> Number)
    requires s != [] && (IsDigit(s[0]) || s[0] == MINUS)
    ensures var r := ParseNumber(s);
            ParseValue(s, round) == if r.Fail? then Fail else Read(Num(round(r.value)), r.rest)
  {
    assert SkipSpace(s) == s;
  }

  lemma {:induction false} InfiniteReads(x: Number, rest: Text, round: Number -> Number)
    requires x.Infinite?
    ensures ParseValue(Canonicalize(Num(x)) + rest, round) == Read(Norm(Num(x)), rest)
  {
    WordReads(Null, rest, round);
  }

  lemma {:induction false} NumberStarts(x: Number)
    requires !x.Infinite?
    ensures NumberText(x) != [] && (IsDigit(NumberText(x)[0]) || NumberText(x)[0] == MINUS)
  {
    match x {
      case Zero(_) =>
      case Decimal(neg, d, n) => assert MagnitudeText(d, n) != [] && IsDigit(MagnitudeText(d, n)[0]);
    }
  }

  lemma {:induction false} PrintedReads(v: Json, rest: Text, round: Number -> Number)
    requires Storable(v) && Held(v, round) && Ends(rest)
    ensures ParseValue(Canonicalize(v) + rest, round) == Read(Norm(v), rest)
    decreases v, 0
  {
    match v {
      case Null => WordReads(v, rest, round);
      case Bool(_) => WordReads(v, rest, round);
      case Num(x) => if x.Infinite? { InfiniteReads(x, rest, round); } else { FiniteReads(x, rest, round); }
      case Str(t) => QuoteReads(t, rest);
      case Arr(items) =>
        SpaceThenSame(v, rest);
        ArrayReads(items, rest, round);
      case Obj(ms) =>
        SpaceThenSame(v, rest);
        ObjectReads(ms, rest, round);
    }
  }

  lemma {:induction false} ArrayReads(items: seq<Json>, rest: Text, round: Number -> Number)
    requires forall i | 0 <= i < |items| :: Storable(items[i]) && Held(items[i], round)
    ensures ParseArray(Canonicalize(Arr(items)) + rest, round) == Read(Arr(NormItems(items)), rest)
    decreases items, 1
  {
    var body := ItemsText(items) + ([RBRACKET] + rest);
    Enclosed(LBRACKET, ItemsText(items), RBRACKET, rest);
    if items == [] {
      Tail(RBRACKET, rest);
      assert body == [RBRACKET] + rest;
    } else {
      ItemsRead(items, rest, round);
      FirstUnit(items[0]);
      assert body[0] == Canonicalize(items[0])[0];
    }
  }

  lemma {:induction false} Enclosed(open: Unit, inner: Text, close: Unit, rest: Text)
    ensures [open] + inner + [close] + rest == [open] + (inner + ([close] + rest))
    ensures ([open] + inner + [close] + rest)[1..] == inner + ([close] + rest)
  {
    Assoc([open] + inner, [close], rest);
    Assoc([open], inner, [close] + rest);
    Tail(open, inner + ([close] + rest));
  }

  lemma {:induction false} LastItemReads(text: Text, v: Json, rest: Text, round: Number -> Number)
    requires ParseValue(text + ([RBRACKET] + rest), round) == Read(v, [RBRACKET] + rest)
    ensures ParseItems(text + ([RBRACKET] + rest), round) == Read([v], rest)
  {
    Tail(RBRACKET, rest);
  }

  lemma {:induction false} NextItemReads(text: Text, v: Json, tail: Text, more: seq<Json>, rest: Text, round: Number -> Number)
    requires ParseValue(text + ([COMMA] + tail), round) == Read(v, [COMMA] + tail)
    requires ParseItems(tail, round) == Read(more, rest)
    ensures ParseItems(text + ([COMMA] + tail), round) == Read([v] + more, rest)
  {
    Tail(COMMA, tail);
  }

  lemma {:induction false} ItemsRead(items: seq<Json>, rest: Text, round: Number -> Number)
    requires items != [] && forall i | 0 <= i < |items| :: Storable(items[i]) && Held(items[i], round)
    ensures ParseItems(ItemsText(items) + ([RBRACKET] + rest), round) == Read(NormItems(items), rest)
    decreases items, 0
  {
    var text := Canonicalize(items[0]);
    if |items| == 1 {
      PrintedReads(items[0], [RBRACKET] + rest, round);
      LastItemReads(text, Norm(items[0]), rest, round);
      assert NormItems(items) == [Norm(items[0])];
    } else {
      var tail := ItemsText(items[1..]) + ([RBRACKET] + rest);
      PrintedReads(items[0], [COMMA] + tail, round);
      ItemsRead(items[1..], rest, round);
      NextItemReads(text, Norm(items[0]), tail, NormItems(items[1..]), rest, round);
      Separated(text, ItemsText(items[1..]), [RBRACKET] + rest);
    }
  }

  lemma {:induction false} Separated(a: Text, b: Text, rest: Text)
    ensures a + [COMMA] + b + rest == a + ([COMMA] + (b + rest))
  {
    Assoc(a + [COMMA], b, rest);
    Assoc(a, [COMMA], b + rest);
  }

  lemma {:induction false} SortedKeysDistinct(ms: seq<Member>)
    requires Distinct(Keys(ms))
    ensures Distinct(SortedKeys(ms))
    ensures forall k | k in SortedKeys(ms) :: Has(ms, k) && ms[Find(ms, k)].value != Undefined
  {
    SortedKeysAreKeys(ms);
    DefinedDistinct(ms);
    PermutationOfDistinct(Keys(Defined(ms)), SortedKeys(ms));
    forall k | k in SortedKeys(ms) ensures Has(ms, k) && ms[Find(ms, k)].value != Undefined {
      var m :| m in ms && m.value != Undefined && m.key == k;
      var i :| 0 <= i < |ms| && ms[i] == m;
      FindDistinct(ms, i);
    }
  }

  lemma {:induction false} DefinedDistinct(ms: seq<Member>)
    requires Distinct(Keys(ms))
    ensures Distinct(Keys(Defined(ms)))
  {
    if ms != [] {
      assert Keys(ms)[1..] == Keys(ms[1..]);
      DefinedDistinct(ms[1..]);
      var d := Defined(ms[1..]);
      if ms[0].value == Undefined {
        assert Defined(ms) == d;
      } else {
        FirstNameIsNew(ms);
        assert Keys(Defined(ms)) == [ms[0].key] + Keys(d);
      }
    }
  }

  lemma {:induction false} FirstNameIsNew(ms: seq<Member>)
    requires ms != [] && Distinct(Keys(ms))
    ensures forall i {:trigger Keys(Defined(ms[1..]))[i]} | 0 <= i < |Defined(ms[1..])| :: Keys(Defined(ms[1..]))[i] != ms[0].key
  {
    var d := Defined(ms[1..]);
    DefinedMembers(ms[1..]);
    forall i | 0 <= i < |d| ensures Keys(d)[i] != ms[0].key {
      assert d[i] in ms[1..];
      var j :| 0 <= j < |ms[1..]| && ms[1..][j] == d[i];
      assert Keys(ms)[j + 1] == d[i].key && Keys(ms)[0] == ms[0].key;
    }
  }

  lemma {:induction false} CountsOnceIsDistinct(s: seq<Text>)
    requires forall k :: multiset(s)[k] <= 1
    ensures Distinct(s)
  {
    if s != [] {
      assert s == [s[0]] + s[1..];
      assert forall k :: multiset(s[1..])[k] <= multiset(s)[k];
      CountsOnceIsDistinct(s[1..]);
      forall j | 0 < j < |s| ensures s[0] != s[j] {
        assert s[j] == s[1..][j - 1] && s[j] in multiset(s[1..]);
        assert multiset(s) == multiset{s[0]} + multiset(s[1..]);
      }
    }
  }

  lemma {:induction false} PermutationOfDistinct(a: seq<Text>, b: seq<Text>)
    requires Distinct(a) && multiset(a) == multiset(b)
    ensures Distinct(b)
  {
    forall k ensures multiset(b)[k] <= 1 { DistinctCountsOnce(a, k); }
    CountsOnceIsDistinct(b);
  }

  lemma {:induction false} ObjectReads(ms: seq<Member>, rest: Text, round: Number -> Number)
    requires Storable(Obj(ms)) && Held(Obj(ms), round)
    ensures ParseObject(Canonicalize(Obj(ms)) + rest, round) == Read(Norm(Obj(ms)), rest)
    decreases ms, 1, 0
  {
    SortedKeysAreKeys(ms);
    var ks := SortedKeys(ms);
    if ks == [] {
      EmptyObjectReads(ms, rest, round);
    } else {
      SortedKeysDistinct(ms);
      MembersRead(ms, ks, [], rest, round);
      assert [] + NormMembers(ms, ks) == NormMembers(ms, ks);
      QuoteFirst(ms, ks);
      ObjectFromMembers(MembersText(ms, ks), NormMembers(ms, ks), rest, round);
    }
  }

  lemma {:induction false} EmptyObjectReads(ms: seq<Member>, rest: Text, round: Number -> Number)
    requires SortedKeys(ms) == []
    ensures ParseObject(Canonicalize(Obj(ms)) + rest, round) == Read(Obj([]), rest)
  {
    Enclosed(LBRACE, [], RBRACE, rest);
    Tail(RBRACE, rest);
    assert [] + ([RBRACE] + rest) == [RBRACE] + rest;
    assert Canonicalize(Obj(ms)) == [LBRACE] + [] + [RBRACE];
  }

  lemma {:induction false} QuoteFirst(ms: seq<Member>, ks: seq<Text>)
    requires ks != [] && forall k | k in ks :: Has(ms, k)
    ensures StartsWith(MembersText(ms, ks), QUOTE)
  {}

  lemma {:induction false} ObjectFromMembers(inner: Text, read: seq<Member>, rest: Text, round: Number -> Number)
    requires StartsWith(inner, QUOTE) && ParseMembers(inner + ([RBRACE] + rest), [], round) == Read(read, rest)
    ensures ParseObject([LBRACE] + inner + [RBRACE] + rest, round) == Read(Obj(read), rest)
  {
    Enclosed(LBRACE, inner, RBRACE, rest);
    assert SkipSpace(inner + ([RBRACE] + rest)) == inner + ([RBRACE] + rest);
  }

  function MemberText(k: Text, v: Json): Text {
    Quote(k) + [COLON] + Canonicalize(v)
  }

  lemma {:induction false} MemberReads(k: Text, v: Json, more: Text, round: Number -> Number)
    requires ParseValue(Canonicalize(v) + more, round) == Read(Norm(v), more)
    ensures ParseMember(MemberText(k, v) + more, round) == Read(Member(k, Norm(v)), more)
  {
    MemberReadsAs(k, v, Norm(v), more, round);
  }

  /** One printed member, as ParseMember takes it apart. */
  lemma {:induction false} MemberReadsAs(k: Text, v: Json, x: Json, more: Text, round: Number -> Number)
    requires ParseValue(Canonicalize(v) + more, round) == Read(x, more)
    ensures ParseMember(MemberText(k, v) + more, round) == Read(Member(k, x), more)
  {
    var afterKey := [COLON] + (Canonicalize(v) + more);
    Assoc(Quote(k) + [COLON], Canonicalize(v), more);
    Assoc(Quote(k), [COLON], Canonicalize(v) + more);
    QuoteReads(k, afterKey);
    Tail(COLON, Canonicalize(v) + more);
  }

  lemma {:induction false} LastMemberReads(m: Member, read: seq<Member>, rest: Text, round: Number -> Number)
    requires ParseValue(Canonicalize(m.value) + ([RBRACE] + rest), round) == Read(Norm(m.value), [RBRACE] + rest)
    requires !Has(read, m.key)
    ensures ParseMembers(MemberText(m.key, m.value) + ([RBRACE] + rest), read, round)
         == Read(read + [Member(m.key, Norm(m.value))], rest)
  {
    MemberReads(m.key, m.value, [RBRACE] + rest, round);
    MembersEnd(MemberText(m.key, m.value) + ([RBRACE] + rest), Member(m.key, Norm(m.value)), read, rest, round);
  }

  lemma {:induction false} MembersEnd(s: Text, m: Member, read: seq<Member>, rest: Text, round: Number -> Number)
    requires ParseMember(s, round) == Read(m, [RBRACE] + rest) && !Has(read, m.key)
    ensures ParseMembers(s, read, round) == Read(read + [m], rest)
  {
    Tail(RBRACE, rest);
  }

  lemma {:induction false} MembersGoOn(s: Text, m: Member, read: seq<Member>, tail: Text, round: Number -> Number)
    requires ParseMember(s, round) == Read(m, [COMMA] + tail) && !Has(read, m.key)
    ensures ParseMembers(s, read, round) == ParseMembers(tail, read + [m], round)
  {
    Tail(COMMA, tail);
  }

  lemma {:induction false} NextMemberReads(m: Member, read: seq<Member>, tail: Text, round: Number -> Number)
    requires ParseValue(Canonicalize(m.value) + ([COMMA] + tail), round) == Read(Norm(m.value), [COMMA] + tail)
    requires !Has(read, m.key)
    ensures ParseMembers(MemberText(m.key, m.value) + ([COMMA] + tail), read, round)
         == ParseMembers(tail, read + [Member(m.key, Norm(m.value))], round)
  {
    MemberReads(m.key, m.value, [COMMA] + tail, round);
    MembersGoOn(MemberText(m.key, m.value) + ([COMMA] + tail), Member(m.key, Norm(m.value)), read, tail, round);
  }

  lemma {:induction false} MembersTextStep(ms: seq<Member>, ks: seq<Text>, rest: Text)
    requires ks != [] && forall k | k in ks :: Has(ms, k)
    ensures forall k | k in ks[1..] :: Has(ms, k)
    ensures MembersText(ms, ks) + rest
         == MemberText(ks[0], ms[Find(ms, ks[0])].value)
            + (if |ks| == 1 then rest else [COMMA] + (MembersText(ms, ks[1..]) + rest))
  {
    if |ks| > 1 { Separated(MemberText(ks[0], ms[Find(ms, ks[0])].value), MembersText(ms, ks[1..]), rest); }
  }

  lemma {:induction false} MembersRead(ms: seq<Member>, ks: seq<Text>, read: seq<Member>, rest: Text, round: Number -> Number)
    requires ks != [] && Distinct(ks) && forall k | k in ks :: Has(ms, k) && !Has(read, k)
    requires forall k | k in ks :: ms[Find(ms, k)].value != Undefined
    requires forall i | 0 <= i < |ms| :: (ms[i].value == Undefined || Storable(ms[i].value)) && Held(ms[i].value, round)
    ensures ParseMembers(MembersText(ms, ks) + ([RBRACE] + rest), read, round) == Read(read + NormMembers(ms, ks), rest)
    decreases ms, 0, |ks|
  {
    var i := Find(ms, ks[0]);
    var m := Member(ks[0], Norm(ms[i].value));
    MembersTextStep(ms, ks, [RBRACE] + rest);
    if |ks| == 1 {
      PrintedReads(ms[i].value, [RBRACE] + rest, round);
      LastMemberReads(ms[i], read, rest, round);
      assert NormMembers(ms, ks) == [m];
    } else {
      var tail := MembersText(ms, ks[1..]) + ([RBRACE] + rest);
      PrintedReads(ms[i].value, [COMMA] + tail, round);
      NextMemberReads(ms[i], read, tail, round);
      RestStaysNew(ks, read, m);
      MembersRead(ms, ks[1..], read + [m], rest, round);
      Assoc(read, [m], NormMembers(ms, ks[1..]));
    }
  }

  lemma {:induction false} RestStaysNew(ks: seq<Text>, read: seq<Member>, m: Member)
    requires |ks| > 1 && Distinct(ks) && m.key == ks[0] && forall k | k in ks :: !Has(read, k)
    ensures Distinct(ks[1..]) && forall k | k in ks[1..] :: k in ks && !Has(read + [m], k)
  {
    assert Keys(read + [m]) == Keys(read) + [m.key];
    forall k | k in ks[1..] ensures k in ks && !Has(read + [m], k) {
      var p :| 0 <= p < |ks[1..]| && ks[1..][p] == k;
      assert ks[p + 1] == k && ks[0] != ks[p + 1];
    }
  }

  // ------------------------------------------- what a printed value commits to

  lemma {:induction false} NormIsJson(v: Json)
    requires Storable(v)
    ensures IsJson(Norm(v)) && Norm(v) != Undefined
  {
    match v {
      case Arr(items) =>
        forall i | 0 <= i < |items| ensures IsJson(NormItems(items)[i]) { NormIsJson(items[i]); }
      case Obj(ms) =>
        SortedKeysAreKeys(ms);
        SortedKeysDistinct(ms);
        var ks := SortedKeys(ms);
        forall i | 0 <= i < |ks| ensures IsJson(NormMembers(ms, ks)[i].value) {
          assert ks[i] in ks;
          NormIsJson(ms[Find(ms, ks[i])].value);
        }
      case _ =>
    }
  }

  lemma {:induction false} PrintsNorm(v: Json)
    requires Storable(v)
    ensures Canonicalize(Norm(v)) == Canonicalize(v)
    decreases v, 0
  {
    match v {
      case Arr(items) => ItemsPrintNorm(items);
      case Obj(ms) =>
        SortedKeysAreKeys(ms);
        SortedKeysDistinct(ms);
        var ks := SortedKeys(ms);
        forall k | k in ks ensures Canonicalize(Norm(ms[Find(ms, k)].value)) == Canonicalize(ms[Find(ms, k)].value) {
          PrintsNorm(ms[Find(ms, k)].value);
        }
        NormKeysSorted(ms);
        MembersPrintNorm(ms, ks, 0);
        assert ks[0..] == ks;
      case _ =>
    }
  }

  lemma {:induction false} ItemsPrintNorm(items: seq<Json>)
    requires forall i | 0 <= i < |items| :: Storable(items[i])
    ensures ItemsText(NormItems(items)) == ItemsText(items)
    decreases items, 0
  {
    if items != [] {
      PrintsNorm(items[0]);
      ItemsPrintNorm(items[1..]);
      assert NormItems(items)[1..] == NormItems(items[1..]);
    }
  }

  lemma {:induction false} NormKeysSorted(ms: seq<Member>)
    requires Storable(Obj(ms)) && forall k | k in SortedKeys(ms) :: Has(ms, k)
    ensures SortedKeys(NormMembers(ms, SortedKeys(ms))) == SortedKeys(ms)
    ensures Distinct(SortedKeys(ms))
  {
    SortedKeysAreKeys(ms);
    SortedKeysDistinct(ms);
    NormMembersDefined(ms, SortedKeys(ms));
    SortOfSorted(SortedKeys(ms), TextLe);
  }

  lemma {:induction false} NormMembersDefined(ms: seq<Member>, ks: seq<Text>)
    requires forall k | k in ks :: Has(ms, k) && ms[Find(ms, k)].value != Undefined
    ensures Defined(NormMembers(ms, ks)) == NormMembers(ms, ks)
    decreases |ks|
  {
    if ks != [] {
      NormMembersDefined(ms, ks[1..]);
      assert NormMembers(ms, ks)[1..] == NormMembers(ms, ks[1..]);
    }
  }

  lemma {:induction false} MembersPrintNorm(ms: seq<Member>, ks: seq<Text>, i: nat)
    requires i <= |ks| && Distinct(ks) && forall k | k in ks :: Has(ms, k)
    requires forall k | k in ks :: Canonicalize(Norm(ms[Find(ms, k)].value)) == Canonicalize(ms[Find(ms, k)].value)
    ensures forall k | k in ks[i..] :: k in ks && Has(NormMembers(ms, ks), k)
    ensures MembersText(NormMembers(ms, ks), ks[i..]) == MembersText(ms, ks[i..])
    decreases |ks| - i
  {
    var nm := NormMembers(ms, ks);
    assert Keys(nm) == ks;
    if i < |ks| {
      assert ks[i] in ks && ks[i..][1..] == ks[i + 1..];
      assert nm[i].key == ks[i];
      FindDistinct(nm, i);
      MembersPrintNorm(ms, ks, i + 1);
    }
  }

  /** Canonical text reads back as the normal form, and that prints the same text. */
  lemma {:induction false} ParseOfCanonical(v: Json, round: Number -> Number)
    requires Storable(v) && Held(v, round)
    ensures Parse(Canonicalize(v), round) == Some(Norm(v))
    ensures Canonicalize(Norm(v)) == Canonicalize(v)
  {
    PrintedReads(v, [], round);
    assert Canonicalize(v) + [] == Canonicalize(v);
    PrintsNorm(v);
  }

  lemma {:induction false} EveryNumberHeldExactly(v: Json)
    ensures Held(v, x => x)
  {
    match v {
      case Arr(items) =>
        forall i | 0 <= i < |items| ensures Held(items[i], x => x) { EveryNumberHeldExactly(items[i]); }
      case Obj(ms) =>
        forall i | 0 <= i < |ms| ensures Held(ms[i].value, x => x) { EveryNumberHeldExactly(ms[i].value); }
      case _ =>
    }
  }

  /** Equal text is equal normal form, whatever the two values are. */
  lemma {:induction false} SameTextSameNorm(a: Json, b: Json)
    requires Storable(a) && Storable(b)
    ensures Canonicalize(a) == Canonicalize(b) <==> Norm(a) == Norm(b)
  {
    EveryNumberHeldExactly(a);
    EveryNumberHeldExactly(b);
    ParseOfCanonical(a, x => x);
    ParseOfCanonical(b, x => x);
  }

  /** For JSON values, equal canonical text is `deepEqual`. */
  lemma {:induction false} SameTextIffDeepEqual(a: Json, b: Json)
    requires IsJson(a) && IsJson(b)
    ensures Canonicalize(a) == Canonicalize(b) <==> DeepEqual(a, b)
  {
    JsonIsStorable(a);
    JsonIsStorable(b);
    SameTextSameNorm(a, b);
    DeepEqualIsNormEqual(a, b);
  }

  /** A JSON value survives storage: what is read back is deeply equal to it. */
  lemma {:induction false} StoredValueIsDeepEqual(v: Json, round: Number -> Number)
    requires IsJson(v) && Held(v, round)
    ensures Parse(Canonicalize(v), round).Some? && DeepEqual(v, Parse(Canonicalize(v), round).value)
  {
    JsonIsStorable(v);
    ParseOfCanonical(v, round);
    NormIsJson(v);
    JsonIsStorable(Norm(v));
    SameTextIffDeepEqual(v, Norm(v));
  }

  /** Two objects with one normal form agree on the normal form of every member. */
  lemma {:induction false} MembersOfSameNorm(x: seq<Member>, y: seq<Member>, k: Text)
    requires Norm(Obj(x)) == Norm(Obj(y)) && k in SortedKeys(x)
    ensures Has(x, k) && Has(y, k) && Norm(x[Find(x, k)].value) == Norm(y[Find(y, k)].value)
  {
    SortedKeysAreKeys(x);
    SortedKeysAreKeys(y);
    assert Keys(NormMembers(x, SortedKeys(x))) == SortedKeys(x);
    assert Keys(NormMembers(y, SortedKeys(y))) == SortedKeys(y);
    SameNormSameValue(x, y, SortedKeys(x), k);
  }

  // ------------------------------------------------- objects of a fixed shape

  lemma {:induction false} ObjectOpens(ms: seq<Member>)
    ensures StartsWith(Canonicalize(Obj(ms)), LBRACE)
  {}

  function Record(ks: seq<Text>, vs: seq<Json>): (ms: seq<Member>)
    requires |ks| == |vs|
    ensures |ms| == |ks| && forall i {:trigger ms[i]} | 0 <= i < |ks| :: ms[i] == Member(ks[i], vs[i])
  {
    if ks == [] then [] else [Member(ks[0], vs[0])] + Record(ks[1..], vs[1..])
  }

  lemma {:induction false} RecordKeys(ks: seq<Text>, vs: seq<Json>)
    requires |ks| == |vs| && Distinct(ks) && forall i | 0 <= i < |vs| :: Storable(vs[i])
    ensures Keys(Record(ks, vs)) == ks && Storable(Obj(Record(ks, vs)))
    ensures multiset(SortedKeys(Record(ks, vs))) == multiset(ks)
    ensures SortedKeys(Record(ks, vs)) == Sort(ks, TextLe)
    ensures forall k | k in Sort(ks, TextLe) :: k in ks
  {
    forall i | 0 <= i < |vs| ensures vs[i] != Undefined {
      assert Storable(vs[i]);
    }
    RecordNames(ks, vs);
  }

  lemma {:induction false} RecordNames(ks: seq<Text>, vs: seq<Json>)
    requires |ks| == |vs| && forall i | 0 <= i < |vs| :: vs[i] != Undefined
    ensures Keys(Record(ks, vs)) == ks
    ensures multiset(SortedKeys(Record(ks, vs))) == multiset(ks)
    ensures SortedKeys(Record(ks, vs)) == Sort(ks, TextLe)
    ensures forall k | k in Sort(ks, TextLe) :: k in ks
  {
    TextLeIsTotal();
    SortSorts(ks, TextLe);
    var ms := Record(ks, vs);
    assert Keys(ms) == ks;
    AllDefined(ms);
    SortedKeysAreKeys(ms);
  }

  /** Fields that print alike make records that print alike. */
  lemma {:induction false} SameTextsSameRecord(ks: seq<Text>, x: seq<Json>, y: seq<Json>)
    requires |ks| == |x| == |y| && Distinct(ks)
    requires forall i | 0 <= i < |ks| :: x[i] != Undefined && y[i] != Undefined && Canonicalize(x[i]) == Canonicalize(y[i])
    ensures Canonicalize(Obj(Record(ks, x))) == Canonicalize(Obj(Record(ks, y)))
  {
    RecordPrints(ks, x);
    RecordPrints(ks, y);
    SameTextsSameMembers(ks, x, y, Sort(ks, TextLe));
  }

  lemma {:induction false} RecordPrints(ks: seq<Text>, vs: seq<Json>)
    requires |ks| == |vs| && forall i | 0 <= i < |vs| :: vs[i] != Undefined
    ensures forall k | k in Sort(ks, TextLe) :: k in ks && Has(Record(ks, vs), k)
    ensures Canonicalize(Obj(Record(ks, vs))) == [LBRACE] + MembersText(Record(ks, vs), Sort(ks, TextLe)) + [RBRACE]
  {
    RecordNames(ks, vs);
    SortedKeysHave(Record(ks, vs));
  }

  lemma {:induction false} SortedKeysHave(ms: seq<Member>)
    ensures forall k | k in SortedKeys(ms) :: Has(ms, k)
    ensures Canonicalize(Obj(ms)) == [LBRACE] + MembersText(ms, SortedKeys(ms)) + [RBRACE]
  {
    SortedKeysAreKeys(ms);
  }

  lemma {:induction false} SameTextsSameMembers(ks: seq<Text>, x: seq<Json>, y: seq<Json>, names: seq<Text>)
    requires |ks| == |x| == |y| && Distinct(ks) && forall i | 0 <= i < |ks| :: Canonicalize(x[i]) == Canonicalize(y[i])
    requires forall k | k in names :: k in ks && Has(Record(ks, x), k) && Has(Record(ks, y), k)
    ensures MembersText(Record(ks, x), names) == MembersText(Record(ks, y), names)
    decreases |names|
  {
    if names != [] {
      assert names[0] in names && names[0] in ks;
      var i :| 0 <= i < |ks| && ks[i] == names[0];
      RecordFind(ks, x, i);
      RecordFind(ks, y, i);
      SameTextsSameMembers(ks, x, y, names[1..]);
    }
  }

  /** Records over the same names print alike exactly when their values do, name by name. */
  lemma {:induction false} RecordTextBinds(ks: seq<Text>, x: seq<Json>, y: seq<Json>)
    requires |ks| == |x| == |y| && Distinct(ks)
    requires forall i | 0 <= i < |ks| :: Storable(x[i]) && Storable(y[i])
    ensures Canonicalize(Obj(Record(ks, x))) == Canonicalize(Obj(Record(ks, y)))
       <==> forall i | 0 <= i < |ks| :: Norm(x[i]) == Norm(y[i])
  {
    RecordKeys(ks, x);
    RecordKeys(ks, y);
    SameTextSameNorm(Obj(Record(ks, x)), Obj(Record(ks, y)));
    if Norm(Obj(Record(ks, x))) == Norm(Obj(Record(ks, y))) {
      forall i | 0 <= i < |ks| ensures Norm(x[i]) == Norm(y[i]) { RecordFieldAgrees(ks, x, y, i); }
    }
    if forall i | 0 <= i < |ks| :: Norm(x[i]) == Norm(y[i]) {
      SameFieldsSameRecord(ks, x, y);
    }
  }

  lemma {:induction false} RecordFieldAgrees(ks: seq<Text>, x: seq<Json>, y: seq<Json>, i: nat)
    requires |ks| == |x| == |y| && Distinct(ks) && i < |ks|
    requires forall j | 0 <= j < |ks| :: Storable(x[j]) && Storable(y[j])
    requires Norm(Obj(Record(ks, x))) == Norm(Obj(Record(ks, y)))
    ensures Norm(x[i]) == Norm(y[i])
  {
    RecordKeys(ks, x);
    RecordKeys(ks, y);
    assert ks[i] in multiset(ks);
    assert ks[i] in SortedKeys(Record(ks, x));
    MembersOfSameNorm(Record(ks, x), Record(ks, y), ks[i]);
    RecordFind(ks, x, i);
    RecordFind(ks, y, i);
  }

  lemma {:induction false} RecordFind(ks: seq<Text>, vs: seq<Json>, i: nat)
    requires |ks| == |vs| && Distinct(ks) && i < |ks|
    ensures Has(Record(ks, vs), ks[i]) && Record(ks, vs)[Find(Record(ks, vs), ks[i])].value == vs[i]
  {
    assert Keys(Record(ks, vs)) == ks;
    assert Record(ks, vs)[i].key == ks[i];
    FindDistinct(Record(ks, vs), i);
  }

  lemma {:induction false} SameFieldsSameRecord(ks: seq<Text>, x: seq<Json>, y: seq<Json>)
    requires |ks| == |x| == |y| && Distinct(ks)
    requires forall i | 0 <= i < |ks| :: Storable(x[i]) && Storable(y[i])
    requires forall i | 0 <= i < |ks| :: Norm(x[i]) == Norm(y[i])
    ensures Norm(Obj(Record(ks, x))) == Norm(Obj(Record(ks, y)))
  {
    RecordKeys(ks, x);
    RecordKeys(ks, y);
    SortedKeysAreKeys(Record(ks, x));
    SortedKeysAreKeys(Record(ks, y));
    SameFieldsSameMembers(ks, x, y, Sort(ks, TextLe));
  }

  lemma {:induction false} SameFieldsSameMembers(ks: seq<Text>, x: seq<Json>, y: seq<Json>, names: seq<Text>)
    requires |ks| == |x| == |y| && Distinct(ks)
    requires forall i | 0 <= i < |ks| :: Norm(x[i]) == Norm(y[i])
    requires forall k | k in names :: k in ks && Has(Record(ks, x), k) && Has(Record(ks, y), k)
    ensures NormMembers(Record(ks, x), names) == NormMembers(Record(ks, y), names)
    decreases |names|
  {
    if names != [] {
      assert names[0] in names && names[0] in ks;
      var i :| 0 <= i < |ks| && ks[i] == names[0];
      RecordFind(ks, x, i);
      RecordFind(ks, y, i);
      SameFieldsSameMembers(ks, x, y, names[1..]);
    }
  }

  // --------------------------------------------- whatever JSON.parse accepts

  lemma {:induction false} ParsedIsStorable(s: Text, round: Number -> Number)
    requires ParseValue(s, round).Read?
    ensures Storable(ParseValue(s, round).value)
    decreases |s|, 0
  {
    var t := SkipSpace(s);
    if t[0] == LBRACKET && !StartsWith(SkipSpace(t[1..]), RBRACKET) {
      ParsedItemsAreStorable(t[1..], round);
    } else if t[0] == LBRACE && !StartsWith(SkipSpace(t[1..]), RBRACE) {
      assert Keys([]) == [];
      ParsedMembersAreStorable(t[1..], [], round);
    }
  }

  lemma {:induction false} ParsedItemsAreStorable(s: Text, round: Number -> Number)
    requires ParseItems(s, round).Read?
    ensures Storable(Arr(ParseItems(s, round).value))
    decreases |s|, 1
  {
    ParsedIsStorable(s, round);
    var t := SkipSpace(ParseValue(s, round).rest);
    if !StartsWith(t, RBRACKET) { ParsedItemsAreStorable(t[1..], round); }
  }

  lemma {:induction false} ParsedMembersAreStorable(s: Text, read: seq<Member>, round: Number -> Number)
    requires ParseMembers(s, read, round).Read? && Storable(Obj(read))
    ensures Storable(Obj(ParseMembers(s, read, round).value))
    decreases |s|, 2
  {
    var m := ParseMember(s, round);
    var k := ParseChars(SkipSpace(s)[1..]);
    ParsedIsStorable(SkipSpace(k.rest)[1..], round);
    var read' := Put(read, m.value.key, m.value.value);
    forall i | 0 <= i < |read'| ensures read'[i].value == Undefined || Storable(read'[i].value) {
      assert read'[i] in read';
    }
    var t := SkipSpace(m.rest);
    if !StartsWith(t, RBRACE) { ParsedMembersAreStorable(t[1..], read', round); }
  }
}
