/**
 * Which of the texts that read as a value the canonical printer chooses (sections 3.2.2 and 3.2.3
 * of RFC 8785): the shortest literal of a string, the shape of a number, items and members in
 * order with nothing between them.
 */
module JsonSpelling {
  import opened Wrappers
  import opened Ordering
  import opened Json
  import opened JsonText
  import opened JsonRoundTrip

  // ------------------------------------------------------------------ plain text

  /** A unit that may stand for itself between quotes, and is no half of a surrogate pair. */
  predicate Plain(u: Unit) {
    u >= 0x20 && u != 0x22 && u != 0x5C && !(0xD800 <= u < 0xE000)
  }

  lemma {:induction false} PlainEscapes(s: Text)
    requires forall i | 0 <= i < |s| :: Plain(s[i])
    ensures Escape(s) == s
  {
    if s != [] {
      PlainEscapes(s[1..]);
      assert s == [s[0]] + s[1..];
    }
  }

  /** Plain text is printed as it is, between quotes. */
  lemma {:induction false} PlainPrintsItself(s: Text)
    requires forall i | 0 <= i < |s| :: Plain(s[i])
    ensures Canonicalize(Str(s)) == [0x22] + s + [0x22]
  {
    PlainEscapes(s);
  }

  // ------------------------------------------------------------------ the shortest literal

  /** Half of a surrogate pair, without the other half. */
  predicate Lone(s: Text, i: nat)
    requires i < |s|
  {
    if 0xD800 <= s[i] < 0xDC00 then i + 1 == |s| || !(0xDC00 <= s[i + 1] < 0xE000)
    else 0xDC00 <= s[i] < 0xE000 && (i == 0 || !(0xD800 <= s[i - 1] < 0xDC00))
  }

  ghost predicate WellFormed(s: Text) {
    forall i {:trigger s[i]} | 0 <= i < |s| :: !Lone(s, i)
  }

  /** How many units the shortest spelling of one unit has. */
  function Cost(u: Unit): nat {
    if u == 0x22 || u == 0x5C || u == 0x08 || u == 0x09 || u == 0x0A || u == 0x0C || u == 0x0D then 2
    else if u < 0x20 then 6
    else 1
  }

  function Costs(s: Text): nat {
    if s == [] then 0 else Cost(s[0]) + Costs(s[1..])
  }

  lemma {:induction false} WellFormedTail(s: Text)
    requires s != [] && WellFormed(s)
    ensures StartsPair(s) ==> WellFormed(s[2..])
    ensures !StartsPair(s) ==> !HighSurrogate(s[0]) && !LowSurrogate(s[0]) && WellFormed(s[1..])
  {
    assert !Lone(s, 0);
    var n := if StartsPair(s) then 2 else 1;
    var t := s[n..];
    forall i | 0 <= i < |t| ensures !Lone(t, i) {
      var k := i + n;
      assert t[i] == s[k] && !Lone(s, k);
      if i == 0 { assert !Lone(s, n - 1); }
    }
  }

  lemma {:induction false} EscapeCosts(s: Text)
    requires WellFormed(s)
    ensures |Escape(s)| == Costs(s)
    decreases |s|
  {
    if s != [] {
      WellFormedTail(s);
      if StartsPair(s) {
        EscapeCosts(s[2..]);
        assert s[1..][1..] == s[2..];
      } else {
        EscapeCosts(s[1..]);
      }
    }
  }

  /** No six-unit escape in it has a capital digit. */
  predicate LowerEscapes(t: Text) {
    if t == [] then true
    else if t[0] == 0x5C then
      |t| >= 2
      && (t[1] == 0x75 ==> forall j {:trigger t[j]} | 2 <= j < 6 && j < |t| :: !(0x41 <= t[j] <= 0x46))
      && LowerEscapes(t[2..])
    else LowerEscapes(t[1..])
  }

  /** What has been read of a text, up to the rest. */
  function Spelled(t: Text, rest: Text): Text
    requires |rest| <= |t|
  {
    t[..|t| - |rest|]
  }

  /** The characters of a literal up to its closing quote are at least as many as the shortest spelling has. */
  lemma {:induction false} SpelledAtLeast(t: Text)
    requires ParseChars(t).Read?
    ensures |t| - |ParseChars(t).rest| >= Costs(ParseChars(t).value) + 1
    ensures t[|t| - |ParseChars(t).rest|..] == ParseChars(t).rest
    decreases |t|
  {
    if t[0] == QUOTE {
    } else {
      var n := PieceLength(t);
      SpelledAtLeast(t[n..]);
      FirstPiece(t, n);
    }
  }

  /** The length of the piece that spells the first unit. */
  function PieceLength(t: Text): (n: nat)
    requires t != [] && t[0] != QUOTE && ParseChars(t).Read?
    ensures 1 <= n <= |t|
  {
    if t[0] != BACKSLASH then 1 else if SimpleEscape(t[1]) >= 0 then 2 else 6
  }

  lemma {:induction false} FirstPiece(t: Text, n: nat)
    requires t != [] && t[0] != QUOTE && ParseChars(t).Read? && n == PieceLength(t)
    ensures ParseChars(t[n..]).Read? && ParseChars(t).rest == ParseChars(t[n..]).rest
    ensures ParseChars(t).value != [] && ParseChars(t).value[1..] == ParseChars(t[n..]).value
    ensures Cost(ParseChars(t).value[0]) <= n
    ensures ParseChars(t) == Push(ParseChars(t).value[0], ParseChars(t[n..]))
  {}

  /** The piece of the cheapest length is the printed one. */
  lemma {:induction false} CheapestPiece(t: Text, n: nat, u: Unit)
    requires t != [] && t[0] != QUOTE && ParseChars(t).Read? && n == PieceLength(t) == Cost(u) && u == ParseChars(t).value[0]
    requires !HighSurrogate(u) && !LowSurrogate(u)
    requires n == 6 ==> forall j | 2 <= j < 6 :: !(0x41 <= t[j] <= 0x46)
    ensures t[..n] == EscapeUnit(u)
  {
    if n == 6 { HexBack(t[2], t[3], t[4], t[5], u); }
  }

  lemma {:induction false} HexBack(a: Unit, b: Unit, c: Unit, d: Unit, u: Unit)
    requires HexQuad(a, b, c, d) == u as int
    requires !(0x41 <= a <= 0x46) && !(0x41 <= b <= 0x46) && !(0x41 <= c <= 0x46) && !(0x41 <= d <= 0x46)
    ensures UnicodeEscape(u) == [BACKSLASH, LOWER_U, a, b, c, d]
  {
    var n := u as int;
    var p, q, r, s := HexValue(a), HexValue(b), HexValue(c), HexValue(d);
    HexParts(p, q, r, s);
    HexUnitBack(a);
    HexUnitBack(b);
    HexUnitBack(c);
    HexUnitBack(d);
  }

  lemma {:induction false} HexUnitBack(a: Unit)
    requires HexValue(a) >= 0 && !(0x41 <= a <= 0x46)
    ensures HexUnit(HexValue(a)) == a
  {}

  lemma {:induction false} HexParts(p: int, q: int, r: int, s: int)
    requires 0 <= p < 16 && 0 <= q < 16 && 0 <= r < 16 && 0 <= s < 16
    ensures var n := p * 4096 + q * 256 + r * 16 + s;
            n / 4096 == p && n / 256 % 16 == q && n / 16 % 16 == r && n % 16 == s
  {
    var n := p * 4096 + q * 256 + r * 16 + s;
    assert n / 16 == p * 256 + q * 16 + r && n / 256 == p * 16 + q;
  }

  lemma {:induction false} LowerTail(t: Text, rest: Text, n: nat)
    requires t != [] && t[0] != QUOTE && ParseChars(t).Read? && n == PieceLength(t) && rest == ParseChars(t).rest
    requires |rest| + n <= |t| && LowerEscapes(Spelled(t, rest))
    ensures Spelled(t, rest)[n..] == Spelled(t[n..], rest) && LowerEscapes(Spelled(t[n..], rest))
    ensures n == 6 ==> forall j | 2 <= j < 6 :: !(0x41 <= t[j] <= 0x46)
  {
    var x := Spelled(t, rest);
    if n == 2 {
      assert x[2..] == Spelled(t[2..], rest);
    } else if n == 6 {
      SkipFour(x[2..]);
      assert x[2..][4..] == x[6..];
      forall j | 2 <= j < 6 ensures !(0x41 <= t[j] <= 0x46) { assert x[j] == t[j]; }
    }
  }

  lemma {:induction false} SkipFour(x: Text)
    requires |x| >= 4 && LowerEscapes(x) && x[0] != 0x5C && x[1] != 0x5C && x[2] != 0x5C && x[3] != 0x5C
    ensures LowerEscapes(x[4..])
  {
    assert LowerEscapes(x[1..]);
    assert x[1..][1..] == x[2..] && LowerEscapes(x[2..]);
    assert x[2..][1..] == x[3..] && LowerEscapes(x[3..]);
    assert x[3..][1..] == x[4..];
  }

  /** A literal no longer than it must be, with small digits in its escapes, is the printed one. */
  lemma {:induction false} OnlyCheapest(t: Text, rest: Text)
    requires ParseChars(t).Read? && rest == ParseChars(t).rest && WellFormed(ParseChars(t).value)
    requires |t| - |rest| == Costs(ParseChars(t).value) + 1 && LowerEscapes(Spelled(t, rest))
    ensures Spelled(t, rest) == Escape(ParseChars(t).value) + [QUOTE]
    decreases |t|, 2
  {
    var s := ParseChars(t).value;
    if t[0] == QUOTE {
      assert Spelled(t, rest) == [QUOTE];
    } else {
      FirstPiece(t, PieceLength(t));
      if StartsPair(s) { PairSpelled(t, rest); } else { SingleSpelled(t, rest); }
    }
  }

  lemma {:induction false} SingleSpelled(t: Text, rest: Text)
    requires ParseChars(t).Read? && rest == ParseChars(t).rest && t[0] != QUOTE
    requires ParseChars(t).value != [] && !StartsPair(ParseChars(t).value) && WellFormed(ParseChars(t).value)
    requires |t| - |rest| == Costs(ParseChars(t).value) + 1 && LowerEscapes(Spelled(t, rest))
    ensures Spelled(t, rest) == Escape(ParseChars(t).value) + [QUOTE]
    decreases |t|, 1
  {
    var s, n := ParseChars(t).value, PieceLength(t);
    FirstPiece(t, n);
    SpelledAtLeast(t[n..]);
    LowerTail(t, rest, n);
    WellFormedTail(s);
    OnlyCheapest(t[n..], rest);
    CheapestPiece(t, n, s[0]);
    Glued(t, rest, n, EscapeUnit(s[0]), Escape(s[1..]));
  }

  lemma {:induction false} Glued(t: Text, rest: Text, n: nat, piece: Text, more: Text)
    requires |rest| + n <= |t| && t[..n] == piece && Spelled(t, rest)[n..] == more + [QUOTE]
    ensures Spelled(t, rest) == piece + more + [QUOTE]
  {
    assert Spelled(t, rest) == t[..n] + Spelled(t, rest)[n..];
  }

  /** A unit that costs one is spelled by itself, and what follows is as short as it can be. */
  lemma {:induction false} RawFirst(t: Text, rest: Text)
    requires ParseChars(t).Read? && rest == ParseChars(t).rest && t[0] != QUOTE && Cost(ParseChars(t).value[0]) == 1
    requires |t| - |rest| == Costs(ParseChars(t).value) + 1 && LowerEscapes(Spelled(t, rest))
    ensures ParseChars(t[1..]).Read? && rest == ParseChars(t[1..]).rest && ParseChars(t[1..]).value == ParseChars(t).value[1..]
    ensures t[0] == ParseChars(t).value[0] && |t[1..]| - |rest| == Costs(ParseChars(t[1..]).value) + 1
    ensures LowerEscapes(Spelled(t[1..], rest)) && Spelled(t, rest) == [t[0]] + Spelled(t[1..], rest)
  {
    var n := PieceLength(t);
    FirstPiece(t, n);
    SpelledAtLeast(t[n..]);
    LowerTail(t, rest, n);
  }

  lemma {:induction false} PairSpelled(t: Text, rest: Text)
    requires ParseChars(t).Read? && rest == ParseChars(t).rest && t[0] != QUOTE
    requires StartsPair(ParseChars(t).value) && WellFormed(ParseChars(t).value)
    requires |t| - |rest| == Costs(ParseChars(t).value) + 1 && LowerEscapes(Spelled(t, rest))
    ensures Spelled(t, rest) == Escape(ParseChars(t).value) + [QUOTE]
    decreases |t|, 1
  {
    var s, t1 := ParseChars(t).value, t[1..];
    RawFirst(t, rest);
    RawFirst(t1, rest);
    WellFormedTail(s);
    assert s[1..][1..] == s[2..] && t1[1..] == t[2..];
    OnlyCheapest(t[2..], rest);
    assert Spelled(t, rest) == s[..2] + Spelled(t[2..], rest);
    Assoc(s[..2], Escape(s[2..]), [QUOTE]);
  }

  /**
   * Of all literals that read as a text without lone surrogates none is shorter than the printed one,
   * and of those as short it is the only one whose escapes have no capital digits.
   */
  lemma {:induction false} PrintedIsShortest(t: Text)
    requires StartsWith(t, QUOTE) && ParseString(t).Read? && WellFormed(ParseString(t).value.t)
    ensures var printed, literal := Canonicalize(ParseString(t).value), Spelled(t, ParseString(t).rest);
            && |printed| <= |literal|
            && (|printed| == |literal| && LowerEscapes(literal[1..]) ==> printed == literal)
  {
    var body, r := t[1..], ParseChars(t[1..]);
    SpelledAtLeast(body);
    EscapeCosts(r.value);
    PrintedLength(r.value);
    if |Canonicalize(Str(r.value))| == |Spelled(t, r.rest)| && LowerEscapes(Spelled(t, r.rest)[1..]) {
      SpelledTail(t, r.rest);
      OnlyCheapest(body, r.rest);
    }
  }

  lemma {:induction false} PrintedLength(s: Text)
    ensures Canonicalize(Str(s)) == [QUOTE] + (Escape(s) + [QUOTE]) && |Canonicalize(Str(s))| == |Escape(s)| + 2
  {
    Assoc([QUOTE], Escape(s), [QUOTE]);
  }

  lemma {:induction false} SpelledTail(t: Text, rest: Text)
    requires StartsWith(t, QUOTE) && |rest| < |t|
    ensures Spelled(t, rest)[1..] == Spelled(t[1..], rest) && Spelled(t, rest) == [QUOTE] + Spelled(t[1..], rest)
  {}

  // ------------------------------------------------------------------ lone surrogates

  /** The six units that spell `u` by its hexadecimal number, in small digits. */
  predicate IsLongEscape(e: Text, u: Unit) {
    && |e| == 6 && e[0] == 0x5C && e[1] == 0x75
    && (forall i | 2 <= i < 6 :: IsDigit(e[i]) || 0x61 <= e[i] <= 0x66)
    && HexQuad(e[2], e[3], e[4], e[5]) == u as int
  }

  lemma {:induction false} UnicodeEscapeIsLong(u: Unit)
    ensures IsLongEscape(UnicodeEscape(u), u)
  {
    UnicodeEscapeReads(u);
  }

  lemma {:induction false} EscapeOfConcat(a: Text, b: Text)
    requires a == [] || b == [] || !(HighSurrogate(a[|a| - 1]) && LowSurrogate(b[0]))
    ensures Escape(a + b) == Escape(a) + Escape(b)
    decreases |a|
  {
    if a == [] {
      assert a + b == b;
    } else if StartsPair(a) {
      EscapeOfConcat(a[2..], b);
      PairFirst(a, b);
      Assoc(a[..2], Escape(a[2..]), Escape(b));
    } else {
      EscapeOfConcat(a[1..], b);
      UnitFirst(a, b);
      Assoc(EscapeUnit(a[0]), Escape(a[1..]), Escape(b));
    }
  }

  lemma {:induction false} PairFirst(a: Text, b: Text)
    requires StartsPair(a)
    ensures Escape(a + b) == a[..2] + Escape(a[2..] + b)
  {
    assert (a + b)[2..] == a[2..] + b && (a + b)[..2] == a[..2];
  }

  lemma {:induction false} UnitFirst(a: Text, b: Text)
    requires a != [] && !StartsPair(a) && (b == [] || !(HighSurrogate(a[|a| - 1]) && LowSurrogate(b[0])))
    ensures Escape(a + b) == EscapeUnit(a[0]) + Escape(a[1..] + b)
  {
    assert (a + b)[1..] == a[1..] + b;
  }

  /** What is printed of a text between the quotes. */
  function Inside(s: Text): (t: Text)
    ensures Canonicalize(Str(s)) == [0x22] + t + [0x22]
  {
    var printed := Canonicalize(Str(s));
    assert printed == [QUOTE] + Escape(s) + [QUOTE];
    printed[1..|printed| - 1]
  }

  lemma {:induction false} InsideIsEscape(s: Text)
    ensures Inside(s) == Escape(s)
  {
    assert Canonicalize(Str(s)) == [QUOTE] + Escape(s) + [QUOTE];
  }

  /** A lone surrogate is printed by its number between what is printed for the text on either side. */
  lemma {:induction false} LoneSurrogateEscaped(a: Text, u: Unit, b: Text) returns (e: Text)
    requires Lone(a + [u] + b, |a|)
    ensures IsLongEscape(e, u) && Inside(a + [u] + b) == Inside(a) + e + Inside(b)
  {
    var s := a + ([u] + b);
    e := UnicodeEscape(u);
    UnicodeEscapeIsLong(u);
    assert a + [u] + b == s;
    assert s[|a|] == u && (b != [] ==> s[|a| + 1] == b[0]) && (a != [] ==> s[|a| - 1] == a[|a| - 1]);
    EscapeOfConcat([u], b);
    EscapeOfConcat(a, [u] + b);
    EscapeOne(u);
    Assoc(Escape(a), e, Escape(b));
    InsideIsEscape(a);
    InsideIsEscape(b);
    InsideIsEscape(s);
  }

  lemma {:induction false} EscapeOne(u: Unit)
    requires HighSurrogate(u) || LowSurrogate(u)
    ensures Escape([u]) == UnicodeEscape(u)
  {
    assert [u][1..] == [];
  }

  // ------------------------------------------------------------------ numbers

  function PowerOfTen(n: int): real
    decreases if n < 0 then -n else n
  {
    if n == 0 then 1.0 else if n > 0 then 10.0 * PowerOfTen(n - 1) else PowerOfTen(n + 1) / 10.0
  }

  lemma {:induction false} PowerStep(n: int)
    ensures PowerOfTen(n + 1) == 10.0 * PowerOfTen(n) && PowerOfTen(n) > 0.0
    decreases if n < 0 then -n else n
  {
    if n > 0 { PowerStep(n - 1); } else if n < 0 { PowerStep(n + 1); }
  }

  lemma {:induction false} PowersRise(m: int, n: int)
    requires m <= n
    ensures 0.0 < PowerOfTen(m) <= PowerOfTen(n)
    decreases n - m
  {
    PowerStep(m);
    if m < n {
      PowersRise(m, n - 1);
      PowerStep(n - 1);
    }
  }

  /** A value times ten to the power `e`. */
  function Shifted(value: real, e: int): real
    decreases if e < 0 then -e else e
  {
    if e == 0 then value else if e > 0 then 10.0 * Shifted(value, e - 1) else Shifted(value, e + 1) / 10.0
  }

  /** The absolute value of a number that is not zero. */
  function Magnitude(x: Number): real
    requires x.Decimal?
  {
    Shifted(DigitsValue(x.digits) as real, x.point - |x.digits|)
  }

  lemma {:induction false} ShiftedBetween(value: real, k: int, e: int)
    requires PowerOfTen(k - 1) <= value < PowerOfTen(k)
    ensures PowerOfTen(k + e - 1) <= Shifted(value, e) < PowerOfTen(k + e)
    decreases if e < 0 then -e else e
  {
    if e > 0 {
      ShiftedBetween(value, k, e - 1);
      PowerStep(k + e - 1);
      PowerStep(k + e - 2);
    } else if e < 0 {
      ShiftedBetween(value, k, e + 1);
      PowerStep(k + e);
      PowerStep(k + e - 1);
    }
  }

  lemma {:induction false} DigitsBetween(d: seq<Digit>)
    requires d != [] && d[0] != 0
    ensures PowerOfTen(|d| - 1) <= DigitsValue(d) as real < PowerOfTen(|d|)
    decreases |d|
  {
    var n := |d| - 1;
    PowerStep(n);
    if n == 0 {
      assert d[..0] == [];
      assert DigitsValue(d) == d[0] as int;
    } else {
      PowerStep(n - 1);
      var front := d[..n];
      DigitsBetween(front);
      var k := WholePower(n);
      assert DigitsValue(d) == 10 * DigitsValue(front) + d[n] as int;
      assert DigitsValue(front) < k;
    }
  }

  /** A power of ten that is not below one is a whole number. */
  lemma {:induction false} WholePower(n: nat) returns (k: nat)
    ensures PowerOfTen(n) == k as real
  {
    if n == 0 { k := 1; } else { var j := WholePower(n - 1); k := 10 * j; }
  }

  /** `point` is the number of digits before the decimal point. */
  lemma {:induction false} PointBounds(x: Number)
    requires x.Decimal?
    ensures PowerOfTen(x.point - 1) <= Magnitude(x) < PowerOfTen(x.point)
  {
    DigitsBetween(x.digits);
    ShiftedBetween(DigitsValue(x.digits) as real, |x.digits|, x.point - |x.digits|);
  }

  lemma {:induction false} PointAgainst(x: Number, n: int)
    requires x.Decimal?
    ensures Magnitude(x) < PowerOfTen(n) <==> x.point <= n
  {
    PointBounds(x);
    if x.point <= n { PowersRise(x.point, n); } else { PowersRise(n, x.point - 1); }
  }

  /** A number from a millionth up to below 10^21 in plain decimals, any other with an exponent. */
  predicate InPlainRange(x: Number)
    requires x.Decimal?
  {
    PowerOfTen(-6) <= Magnitude(x) < PowerOfTen(21)
  }

  predicate NoTrailingZero(d: seq<Digit>) { d != [] ==> d[|d| - 1] != 0 }
  predicate NoLeadingZero(d: seq<Digit>) { d != [] && (|d| > 1 ==> d[0] != 0) }

  /** Either zero is printed by one digit. */
  lemma {:induction false} ZeroSpelled(neg: bool)
    ensures NumberText(Zero(neg)) == DigitText([0])
  {
    assert DigitText([]) == [] && [0 as Digit][1..] == [];
  }

  lemma {:induction false} RangeByPoint(x: Number)
    requires x.Decimal?
    ensures InPlainRange(x) <==> -6 < x.point <= 21
    ensures Magnitude(x) < 1.0 <==> x.point <= 0
  {
    PointAgainst(x, -6);
    PointAgainst(x, 21);
    PointAgainst(x, 0);
  }

  /**
   * A number in that range is printed as its sign, whole digits and, after a point, further digits,
   * with no zero too many at either end.
   */
  lemma {:induction false} PlainNumberSpelled(x: Number) returns (whole: seq<Digit>, frac: seq<Digit>)
    requires x.Decimal? && InPlainRange(x)
    ensures NoLeadingZero(whole) && NoTrailingZero(frac)
    ensures NumberText(x) == (if x.neg then [0x2D] else []) + (DigitText(whole) + (if frac == [] then [] else [0x2E] + DigitText(frac)))
  {
    var d, n := x.digits, x.point;
    RangeByPoint(x);
    if |d| <= n {
      whole, frac := d + Zeros(n - |d|), [];
      assert DigitText(whole) + [] == DigitText(whole);
    } else if 0 < n {
      whole, frac := d[..n], d[n..];
      PlainParts(x, whole, frac);
    } else {
      whole, frac := [0], Zeros(-n) + d;
      PlainParts(x, whole, frac);
    }
  }

  /** Any other number but zero: one digit, the rest after a point, and how far the point is from there, with its sign. */
  lemma {:induction false} OtherNumberSpelled(x: Number) returns (first: Digit, frac: seq<Digit>, distance: nat)
    requires x.Decimal? && !InPlainRange(x)
    ensures first != 0 && NoTrailingZero(frac) && distance > 0 && [first] + frac == x.digits
    ensures distance == if Magnitude(x) < 1.0 then 1 - x.point else x.point - 1
    ensures NumberText(x)
         == (if x.neg then [0x2D] else [])
            + (DigitText([first]) + ((if frac == [] then [] else [0x2E] + DigitText(frac))
               + ([0x65, if Magnitude(x) < 1.0 then 0x2D else 0x2B] + DigitText(NatDigits(distance)))))
  {
    RangeByPoint(x);
    first, frac := x.digits[0], x.digits[1..];
    distance := if x.point <= 0 then 1 - x.point else x.point - 1;
    assert x.digits[..1] == [first];
    var sign := if x.point <= 0 then MINUS else PLUS;
    assert [LOWER_E] + ([sign] + DigitText(NatDigits(distance))) == [LOWER_E, sign] + DigitText(NatDigits(distance));
    ExponentParts(x, [first], frac, [LOWER_E, sign] + DigitText(NatDigits(distance)));
  }

  lemma {:induction false} PlainParts(x: Number, whole: seq<Digit>, frac: seq<Digit>)
    requires x.Decimal? && MagnitudeText(x.digits, x.point) == DigitText(whole) + [DOT] + DigitText(frac)
    ensures NumberText(x) == SignText(x.neg) + (DigitText(whole) + ([DOT] + DigitText(frac)))
  {
    Assoc(DigitText(whole), [DOT], DigitText(frac));
  }

  lemma {:induction false} ExponentParts(x: Number, whole: seq<Digit>, frac: seq<Digit>, exponent: Text)
    requires x.Decimal? && MagnitudeText(x.digits, x.point) == DigitText(whole) + FractionText(frac) + exponent
    ensures NumberText(x) == SignText(x.neg) + (DigitText(whole) + (FractionText(frac) + exponent))
  {
    Assoc(DigitText(whole), FractionText(frac), exponent);
  }

  // ------------------------------------------------------------------ items and members

  /** Texts with a comma between each two. */
  function Join(texts: seq<Text>): Text {
    if texts == [] then []
    else if |texts| == 1 then texts[0]
    else texts[0] + [0x2C] + Join(texts[1..])
  }

  function ItemTexts(items: seq<Json>): (texts: seq<Text>)
    ensures |texts| == |items| && forall i {:trigger texts[i]} | 0 <= i < |items| :: texts[i] == Canonicalize(items[i])
  {
    seq(|items|, i requires 0 <= i < |items| => Canonicalize(items[i]))
  }

  lemma {:induction false} ItemsJoined(items: seq<Json>)
    ensures ItemsText(items) == Join(ItemTexts(items))
  {
    if |items| > 1 {
      ItemsJoined(items[1..]);
      assert ItemTexts(items)[1..] == ItemTexts(items[1..]);
    }
  }

  /** An array is printed as its items in order with nothing but commas between them. */
  lemma {:induction false} ArraySpelled(items: seq<Json>)
    ensures Canonicalize(Arr(items)) == [0x5B] + Join(ItemTexts(items)) + [0x5D]
  {
    ItemsJoined(items);
  }

  /** Before in code-unit order: the first unit in which they differ is less, or there is none and it is shorter. */
  ghost predicate Precedes(a: Text, b: Text) {
    exists k: nat ::
      && k <= |a| && k < |b| && a[..k] == b[..k]
      && (k == |a| || (k < |a| && a[k] < b[k]))
  }

  lemma {:induction false} PrecedesIsLess(a: Text, b: Text)
    requires Precedes(a, b)
    ensures TextLess(a, b)
  {
    var k: nat :| k <= |a| && k < |b| && a[..k] == b[..k] && (k == |a| || (k < |a| && a[k] < b[k]));
    LessFrom(a, b, k);
  }

  lemma {:induction false} LessFrom(a: Text, b: Text, k: nat)
    requires k <= |a| && k < |b| && a[..k] == b[..k] && (k == |a| || (k < |a| && a[k] < b[k]))
    ensures TextLess(a, b)
  {
    if k > 0 {
      assert a[0] == a[..k][0] == b[..k][0] == b[0];
      assert a[1..][..k - 1] == a[..k][1..] && b[1..][..k - 1] == b[..k][1..];
      LessFrom(a[1..], b[1..], k - 1);
    }
  }

  lemma {:induction false} LessPrecedes(a: Text, b: Text) returns (k: nat)
    requires TextLess(a, b)
    ensures k <= |a| && k < |b| && a[..k] == b[..k] && (k == |a| || (k < |a| && a[k] < b[k]))
  {
    if a == [] || a[0] != b[0] {
      k := 0;
    } else {
      var j := LessPrecedes(a[1..], b[1..]);
      k := j + 1;
      assert a[..k] == [a[0]] + a[1..][..j] && b[..k] == [b[0]] + b[1..][..j];
    }
  }

  /** Names in strictly rising order, and the members of an object that are not undefined. */
  ghost predicate InNameOrder(ms: seq<Member>) {
    forall i, j | 0 <= i < j < |ms| :: Precedes(ms[i].key, ms[j].key)
  }

  ghost predicate HoldsDefined(sorted: seq<Member>, ms: seq<Member>) {
    forall m :: m in sorted <==> m in ms && m.value != Undefined
  }

  function MemberTexts(ms: seq<Member>): (texts: seq<Text>)
    ensures |texts| == |ms|
    ensures forall i {:trigger texts[i]} | 0 <= i < |ms| :: texts[i] == Canonicalize(Str(ms[i].key)) + [0x3A] + Canonicalize(ms[i].value)
  {
    seq(|ms|, i requires 0 <= i < |ms| => Canonicalize(Str(ms[i].key)) + [0x3A] + Canonicalize(ms[i].value))
  }

  lemma {:induction false} NamesSorted(sorted: seq<Member>)
    requires InNameOrder(sorted)
    ensures Sorted(Keys(sorted), TextLe) && Distinct(Keys(sorted))
  {
    var ks := Keys(sorted);
    forall i, j | 0 <= i < j < |ks| ensures TextLe(ks[i], ks[j]) && ks[i] != ks[j] {
      PrecedesIsLess(sorted[i].key, sorted[j].key);
      TextTrichotomy(ks[i], ks[j]);
    }
  }

  /** Such a list is the one that is printed from. */
  lemma {:induction false} NamesAreSortedKeys(ms: seq<Member>, sorted: seq<Member>)
    requires Distinct(Keys(ms)) && InNameOrder(sorted) && HoldsDefined(sorted, ms)
    ensures Keys(sorted) == SortedKeys(ms)
  {
    NamesSorted(sorted);
    SortedKeysAreKeys(ms);
    SortedKeysDistinct(ms);
    forall k ensures k in Keys(sorted) <==> k in SortedKeys(ms) {
      if k in Keys(sorted) {
        var i :| 0 <= i < |sorted| && Keys(sorted)[i] == k;
        assert sorted[i] in ms;
      }
      if k in SortedKeys(ms) {
        var m :| m in ms && m.value != Undefined && m.key == k;
        assert m in sorted;
        var i :| 0 <= i < |sorted| && sorted[i] == m;
        assert Keys(sorted)[i] == k;
      }
    }
    DistinctSameElements(Keys(sorted), SortedKeys(ms));
    TextLeDistinguishes(Keys(sorted));
    SortedUnique(Keys(sorted), SortedKeys(ms), TextLe);
  }

  lemma {:induction false} MembersJoined(ms: seq<Member>, sorted: seq<Member>)
    requires forall i | 0 <= i < |sorted| :: Has(ms, sorted[i].key) && ms[Find(ms, sorted[i].key)] == sorted[i]
    requires forall k | k in Keys(sorted) :: Has(ms, k)
    ensures MembersText(ms, Keys(sorted)) == Join(MemberTexts(sorted))
    decreases |sorted|
  {
    if sorted != [] {
      assert Keys(sorted)[0] == sorted[0].key;
      assert Keys(sorted)[1..] == Keys(sorted[1..]) && MemberTexts(sorted)[1..] == MemberTexts(sorted[1..]);
      MembersJoined(ms, sorted[1..]);
    }
  }

  /**
   * An object with distinct names is printed as its members that are not undefined, in strictly rising
   * order of their names, each as name, colon and value, with nothing but commas between them.
   */
  lemma {:induction false} ObjectSpelled(ms: seq<Member>, sorted: seq<Member>)
    requires Distinct(Keys(ms)) && InNameOrder(sorted) && HoldsDefined(sorted, ms)
    ensures Canonicalize(Obj(ms)) == [0x7B] + Join(MemberTexts(sorted)) + [0x7D]
  {
    NamesAreSortedKeys(ms, sorted);
    SortedKeysHave(ms);
    forall i | 0 <= i < |sorted| ensures Has(ms, sorted[i].key) && ms[Find(ms, sorted[i].key)] == sorted[i] {
      assert sorted[i] in ms;
      var j :| 0 <= j < |ms| && ms[j] == sorted[i];
      FindDistinct(ms, j);
    }
    MembersJoined(ms, sorted);
  }

  /** There is such an order of the members of every object. */
  lemma {:induction false} NameOrderExists(ms: seq<Member>) returns (sorted: seq<Member>)
    requires Distinct(Keys(ms))
    ensures InNameOrder(sorted) && HoldsDefined(sorted, ms)
  {
    SortedKeysAreKeys(ms);
    SortedKeysDistinct(ms);
    var ks := SortedKeys(ms);
    sorted := seq(|ks|, i requires 0 <= i < |ks| => ms[Find(ms, ks[i])]);
    forall i, j | 0 <= i < j < |sorted| ensures Precedes(sorted[i].key, sorted[j].key) {
      assert ks[i] != ks[j] && TextLe(ks[i], ks[j]);
      var k := LessPrecedes(ks[i], ks[j]);
    }
    forall m ensures m in sorted <==> m in ms && m.value != Undefined {
      if m in ms && m.value != Undefined {
        var j :| 0 <= j < |ms| && ms[j] == m;
        FindDistinct(ms, j);
        assert m.key in ks;
        var i :| 0 <= i < |ks| && ks[i] == m.key;
        assert sorted[i] == m;
      }
    }
  }
}
