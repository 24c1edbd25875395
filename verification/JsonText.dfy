/**
 * JSON.parse over the full JSON grammar, and the round trip with the canonical
 * printer: what was printed reads back as its normal form, so two values print
 * alike exactly when their normal forms agree.
 *
 * `round` is the one foreign step: it takes the decimal a literal spells to the
 * number the host holds for it (the nearest binary64, possibly an infinity).
 */
module JsonText {
  import opened Wrappers
  import opened Ordering
  import opened Json

  datatype Parsed<+R> = Fail | Read(value: R, rest: Text)

  predicate IsSpace(u: Unit) { u == 0x20 || u == 0x09 || u == 0x0A || u == 0x0D }
  predicate IsDigit(u: Unit) { DIGIT_0 <= u <= DIGIT_9 }
  predicate StartsWith(s: Text, u: Unit) { s != [] && s[0] == u }

  function SkipSpace(s: Text): (r: Text)
    ensures |r| <= |s|
    ensures s != [] && !IsSpace(s[0]) ==> r == s
  {
    if s != [] && IsSpace(s[0]) then SkipSpace(s[1..]) else s
  }

  // ---------------------------------------------------------------- numbers

  function DigitOf(u: Unit): Digit
    requires IsDigit(u)
  {
    (u as int - 0x30) as Digit
  }

  /** The longest run of digits at the head, and what follows it. */
  function SplitDigits(s: Text): (r: (seq<Digit>, Text))
    ensures |r.0| + |r.1| == |s|
  {
    if s != [] && IsDigit(s[0]) then
      var (d, rest) := SplitDigits(s[1..]);
      ([DigitOf(s[0])] + d, rest)
    else ([], s)
  }

  /** The number 0.d × 10^p by its shortest digits. */
  function Normalize(neg: bool, d: seq<Digit>, p: int): Number
    decreases |d|
  {
    if d == [] then Zero(neg)
    else if d[0] == 0 then Normalize(neg, d[1..], p - 1)
    else if d[|d| - 1] == 0 then Normalize(neg, d[..|d| - 1], p)
    else Decimal(neg, d, p)
  }

  function DigitsValue(d: seq<Digit>): nat {
    if d == [] then 0 else 10 * DigitsValue(d[..|d| - 1]) + d[|d| - 1] as int
  }

  function ParseFraction(s: Text): (r: Parsed<seq<Digit>>)
    ensures r.Read? ==> |r.rest| <= |s|
  {
    if StartsWith(s, DOT) then
      var (d, rest) := SplitDigits(s[1..]);
      if d == [] then Fail else Read(d, rest)
    else Read([], s)
  }

  function ParseExponent(s: Text): (r: Parsed<int>)
    ensures r.Read? ==> |r.rest| <= |s|
  {
    if StartsWith(s, LOWER_E) || StartsWith(s, 0x45) then
      var signed := StartsWith(s[1..], PLUS) || StartsWith(s[1..], MINUS);
      var (d, rest) := SplitDigits(if signed then s[2..] else s[1..]);
      if d == [] then Fail
      else
        var e: int := DigitsValue(d);
        Read(if StartsWith(s[1..], MINUS) then -e else e, rest)
    else Read(0, s)
  }

  function ParseNumber(s: Text): (r: Parsed<Number>)
    ensures r.Read? ==> |r.rest| < |s|
  {
    if StartsWith(s, MINUS) then ParseUnsigned(true, s[1..]) else ParseUnsigned(false, s)
  }

  function ParseUnsigned(neg: bool, s: Text): (r: Parsed<Number>)
    ensures r.Read? ==> |r.rest| < |s|
  {
    var (whole, rest) := SplitDigits(s);
    if whole == [] || (|whole| > 1 && whole[0] == 0) then Fail else FinishNumber(neg, whole, rest)
  }

  function FinishNumber(neg: bool, whole: seq<Digit>, s: Text): (r: Parsed<Number>)
    ensures r.Read? ==> |r.rest| <= |s|
  {
    match ParseFraction(s)
    case Fail => Fail
    case Read(frac, afterFrac) =>
      match ParseExponent(afterFrac)
      case Fail => Fail
      case Read(e, rest) => Read(Normalize(neg, whole + frac, |whole| + e), rest)
  }

  // ---------------------------------------------------------------- strings

  function HexValue(u: Unit): (h: int)
    ensures -1 <= h < 16
  {
    if IsDigit(u) then u as int - 0x30
    else if 0x61 <= u < 0x67 then u as int - 0x57
    else if 0x41 <= u < 0x47 then u as int - 0x37
    else -1
  }

  /** The unit four hexadecimal digits name, or -1. */
  function HexQuad(a: Unit, b: Unit, c: Unit, d: Unit): (u: int)
    ensures -1 <= u < 0x1_0000
  {
    if HexValue(a) < 0 || HexValue(b) < 0 || HexValue(c) < 0 || HexValue(d) < 0 then -1
    else HexValue(a) * 4096 + HexValue(b) * 256 + HexValue(c) * 16 + HexValue(d)
  }

  /** The unit a one-letter escape stands for, or -1. */
  function SimpleEscape(u: Unit): (r: int)
    ensures -1 <= r < 0x1_0000
  {
    if u == QUOTE || u == BACKSLASH || u == 0x2F then u as int
    else if u == 0x62 then 0x08
    else if u == 0x66 then 0x0C
    else if u == 0x6E then 0x0A
    else if u == 0x72 then 0x0D
    else if u == 0x74 then 0x09
    else -1
  }

  function Push(u: Unit, r: Parsed<Text>): Parsed<Text> {
    if r.Fail? then Fail else Read([u] + r.value, r.rest)
  }

  /** The characters up to the closing quote. */
  function ParseChars(s: Text): (r: Parsed<Text>)
    ensures r.Read? ==> |r.rest| < |s|
  {
    if s == [] then Fail
    else if s[0] == QUOTE then Read([], s[1..])
    else if s[0] == BACKSLASH then
      if |s| >= 2 && SimpleEscape(s[1]) >= 0 then Push(SimpleEscape(s[1]) as Unit, ParseChars(s[2..]))
      else if |s| >= 6 && s[1] == LOWER_U && HexQuad(s[2], s[3], s[4], s[5]) >= 0 then
        Push(HexQuad(s[2], s[3], s[4], s[5]) as Unit, ParseChars(s[6..]))
      else Fail
    else if s[0] < 0x20 then Fail
    else Push(s[0], ParseChars(s[1..]))
  }

  // ----------------------------------------------------------------- values

  /** Assigns a member the way an object literal does: a repeated name overwrites. */
  function Put(ms: seq<Member>, k: Text, v: Json): (r: seq<Member>)
    ensures Distinct(Keys(ms)) ==> Distinct(Keys(r))
    ensures !Has(ms, k) ==> r == ms + [Member(k, v)]
    ensures forall m | m in r :: m in ms || m.value == v
  {
    if Has(ms, k) then
      assert Keys(ms[Find(ms, k) := Member(k, v)]) == Keys(ms);
      ms[Find(ms, k) := Member(k, v)]
    else
      assert Keys(ms + [Member(k, v)]) == Keys(ms) + [k];
      ms + [Member(k, v)]
  }

  function ParseValue(s: Text, round: Number -> Number): (r: Parsed<Json>)
    ensures r.Read? ==> |r.rest| < |s|
    decreases |s|, 1
  {
    var s := SkipSpace(s);
    if s == [] then Fail
    else if s[0] == QUOTE then ParseString(s)
    else if s[0] == LBRACKET then ParseArray(s, round)
    else if s[0] == LBRACE then ParseObject(s, round)
    else if IsDigit(s[0]) || s[0] == MINUS then
      var r := ParseNumber(s);
      if r.Fail? then Fail else Read(Num(round(r.value)), r.rest)
    else ParseWord(s)
  }

  function ParseString(s: Text): (r: Parsed<Json>)
    requires s != []
    ensures r.Read? ==> |r.rest| < |s|
  {
    var r := ParseChars(s[1..]);
    if r.Fail? then Fail else Read(Str(r.value), r.rest)
  }

  function ParseWord(s: Text): (r: Parsed<Json>)
    ensures r.Read? ==> |r.rest| < |s|
  {
    if T("null") <= s then Read(Null, s[4..])
    else if T("true") <= s then Read(Bool(true), s[4..])
    else if T("false") <= s then Read(Bool(false), s[5..])
    else Fail
  }

  function ParseArray(s: Text, round: Number -> Number): (r: Parsed<Json>)
    requires s != []
    ensures r.Read? ==> |r.rest| < |s|
    decreases |s|, 0
  {
    if StartsWith(SkipSpace(s[1..]), RBRACKET) then Read(Arr([]), SkipSpace(s[1..])[1..])
    else
      var r := ParseItems(s[1..], round);
      if r.Fail? then Fail else Read(Arr(r.value), r.rest)
  }

  function ParseObject(s: Text, round: Number -> Number): (r: Parsed<Json>)
    requires s != []
    ensures r.Read? ==> |r.rest| < |s|
    decreases |s|, 0
  {
    if StartsWith(SkipSpace(s[1..]), RBRACE) then Read(Obj([]), SkipSpace(s[1..])[1..])
    else
      var r := ParseMembers(s[1..], [], round);
      if r.Fail? then Fail else Read(Obj(r.value), r.rest)
  }

  function ParseItems(s: Text, round: Number -> Number): (r: Parsed<seq<Json>>)
    ensures r.Read? ==> |r.rest| < |s|
    decreases |s|, 2
  {
    var v := ParseValue(s, round);
    if v.Fail? then Fail
    else
      var t := SkipSpace(v.rest);
      if StartsWith(t, RBRACKET) then Read([v.value], t[1..])
      else if StartsWith(t, COMMA) then
        var r := ParseItems(t[1..], round);
        if r.Fail? then Fail else Read([v.value] + r.value, r.rest)
      else Fail
  }

  /** A quoted name, a colon and a value. */
  function ParseMember(s: Text, round: Number -> Number): (r: Parsed<Member>)
    ensures r.Read? ==> |r.rest| < |s|
    decreases |s|, 2
  {
    var s := SkipSpace(s);
    if !StartsWith(s, QUOTE) then Fail
    else
      var k := ParseChars(s[1..]);
      if k.Fail? || !StartsWith(SkipSpace(k.rest), COLON) then Fail
      else
        var v := ParseValue(SkipSpace(k.rest)[1..], round);
        if v.Fail? then Fail else Read(Member(k.value, v.value), v.rest)
  }

  /** Members in text order, put one by one onto those already read. */
  function ParseMembers(s: Text, read: seq<Member>, round: Number -> Number): (r: Parsed<seq<Member>>)
    ensures r.Read? ==> |r.rest| < |s|
    decreases |s|, 3
  {
    var m := ParseMember(s, round);
    if m.Fail? then Fail
    else
      var t := SkipSpace(m.rest);
      var read' := Put(read, m.value.key, m.value.value);
      if StartsWith(t, RBRACE) then Read(read', t[1..])
      else if StartsWith(t, COMMA) then ParseMembers(t[1..], read', round)
      else Fail
  }

  /** JSON.parse; None where it throws. */
  function Parse(s: Text, round: Number -> Number): Option<Json> {
    var r := ParseValue(s, round);
    if r.Read? && SkipSpace(r.rest) == [] then Some(r.value) else None
  }
}
