/**
 * JSON values as the host holds them after JSON.parse, their canonical text
 * (RFC 8785 sections 3.2.2 and 3.2.3) and the two notions of sameness the
 * repository uses: equal canonical text and the recursive `deepEqual`.
 */
module Json {
  import opened Ordering

  newtype Digit = d: int | 0 <= d < 10

  /**
   * A number by the shortest digits that identify it, the form ECMAScript
   * Number::toString starts from: Decimal(neg, d, p) is 0.d × 10^p.
   */
  datatype RawNumber =
    | Zero(neg: bool)
    | Decimal(neg: bool, digits: seq<Digit>, point: int)
    | Infinite(neg: bool)

  type Number = x: RawNumber |
    x.Decimal? ==> x.digits != [] && x.digits[0] != 0 && x.digits[|x.digits| - 1] != 0
    witness Zero(false)

  /** `Undefined` is the JavaScript value a member may hold before it is stored. */
  datatype Json =
    | Undefined
    | Null
    | Bool(b: bool)
    | Num(x: Number)
    | Str(t: Text)
    | Arr(items: seq<Json>)
    | Obj(members: seq<Member>)

  datatype Member = Member(key: Text, value: Json)

  // ---------------------------------------------------------------- objects

  function Keys(ms: seq<Member>): (ks: seq<Text>)
    ensures |ks| == |ms| && forall i {:trigger ks[i]} | 0 <= i < |ms| :: ks[i] == ms[i].key
  {
    seq(|ms|, i requires 0 <= i < |ms| => ms[i].key)
  }

  predicate Has(ms: seq<Member>, k: Text) {
    k in Keys(ms)
  }

  /** The position of the first member named `k`. */
  function Find(ms: seq<Member>, k: Text): (i: nat)
    requires Has(ms, k)
    ensures i < |ms| && ms[i].key == k
    ensures forall j | 0 <= j < i :: ms[j].key != k
  {
    if ms[0].key == k then 0
    else
      assert Keys(ms)[1..] == Keys(ms[1..]);
      Find(ms[1..], k) + 1
  }

  lemma {:induction false} FindDistinct(ms: seq<Member>, i: nat)
    requires Distinct(Keys(ms)) && i < |ms|
    ensures Has(ms, ms[i].key) && Find(ms, ms[i].key) == i
  {
    assert Keys(ms)[i] == ms[i].key;
    var j := Find(ms, ms[i].key);
    assert Keys(ms)[j] == Keys(ms)[i];
  }

  /** Object.keys(obj).filter((k) => obj[k] !== undefined) as members. */
  function Defined(ms: seq<Member>): (r: seq<Member>)
    ensures |r| <= |ms|
  {
    if ms == [] then []
    else (if ms[0].value == Undefined then [] else [ms[0]]) + Defined(ms[1..])
  }

  lemma {:induction false} DefinedMembers(ms: seq<Member>)
    ensures forall m :: m in Defined(ms) <==> m in ms && m.value != Undefined
  {
    if ms != [] {
      DefinedMembers(ms[1..]);
      assert ms == [ms[0]] + ms[1..];
    }
  }

  function SortedKeys(ms: seq<Member>): seq<Text> {
    Sort(Keys(Defined(ms)), TextLe)
  }

  lemma {:induction false} SortedKeysAreKeys(ms: seq<Member>)
    ensures forall k :: k in SortedKeys(ms) <==> exists m :: m in ms && m.value != Undefined && m.key == k
    ensures forall k | k in SortedKeys(ms) :: Has(ms, k)
    ensures Sorted(SortedKeys(ms), TextLe)
    ensures multiset(SortedKeys(ms)) == multiset(Keys(Defined(ms)))
  {
    TextLeIsTotal();
    SortSorts(Keys(Defined(ms)), TextLe);
    DefinedMembers(ms);
    forall k ensures k in SortedKeys(ms) <==> exists m :: m in ms && m.value != Undefined && m.key == k {
      if k in SortedKeys(ms) {
        var i :| 0 <= i < |Defined(ms)| && Keys(Defined(ms))[i] == k;
        assert Defined(ms)[i] in ms;
      }
      if m :| m in ms && m.value != Undefined && m.key == k {
        assert m in Defined(ms);
        var i :| 0 <= i < |Defined(ms)| && Defined(ms)[i] == m;
        assert Keys(Defined(ms))[i] == k;
      }
    }
    forall k | k in SortedKeys(ms) ensures Has(ms, k) {
      var m :| m in ms && m.value != Undefined && m.key == k;
      var i :| 0 <= i < |ms| && ms[i] == m;
      assert Keys(ms)[i] == k;
    }
  }

  // ------------------------------------------------------------ well-formed

  /** A value JSON.stringify turns into JSON text: only members may be undefined. */
  ghost predicate Storable(v: Json) {
    match v
    case Undefined => false
    case Arr(items) => forall i | 0 <= i < |items| :: Storable(items[i])
    case Obj(ms) =>
      Distinct(Keys(ms)) && forall i | 0 <= i < |ms| :: ms[i].value == Undefined || Storable(ms[i].value)
    case _ => true
  }

  /** A JSON value: finite numbers, distinct member names, nothing undefined. */
  ghost predicate IsJson(v: Json) {
    match v
    case Undefined => false
    case Num(x) => !x.Infinite?
    case Arr(items) => forall i | 0 <= i < |items| :: IsJson(items[i])
    case Obj(ms) => Distinct(Keys(ms)) && forall i | 0 <= i < |ms| :: IsJson(ms[i].value)
    case _ => true
  }

  lemma {:induction false} JsonIsStorable(v: Json)
    requires IsJson(v)
    ensures Storable(v)
  {
    match v {
      case Arr(items) =>
        forall i | 0 <= i < |items| ensures Storable(items[i]) { JsonIsStorable(items[i]); }
      case Obj(ms) =>
        forall i | 0 <= i < |ms| ensures Storable(ms[i].value) { JsonIsStorable(ms[i].value); }
      case _ =>
    }
  }

  lemma {:induction false} AllDefined(ms: seq<Member>)
    requires forall i | 0 <= i < |ms| :: ms[i].value != Undefined
    ensures Defined(ms) == ms
  {
    if ms != [] {
      AllDefined(ms[1..]);
      assert ms == [ms[0]] + ms[1..];
    }
  }

  // --------------------------------------------------------- canonical text

  const QUOTE: Unit := 0x22
  const BACKSLASH: Unit := 0x5C
  const COMMA: Unit := 0x2C
  const COLON: Unit := 0x3A
  const LBRACKET: Unit := 0x5B
  const RBRACKET: Unit := 0x5D
  const LBRACE: Unit := 0x7B
  const RBRACE: Unit := 0x7D
  const MINUS: Unit := 0x2D
  const PLUS: Unit := 0x2B
  const DOT: Unit := 0x2E
  const LOWER_E: Unit := 0x65
  const LOWER_U: Unit := 0x75
  const DIGIT_0: Unit := 0x30
  const DIGIT_9: Unit := 0x39

  function DigitUnit(d: Digit): Unit { (0x30 + d as int) as Unit }

  function DigitText(d: seq<Digit>): (t: Text)
    ensures |t| == |d|
  {
    if d == [] then [] else [DigitUnit(d[0])] + DigitText(d[1..])
  }

  function Zeros(n: nat): (d: seq<Digit>)
    ensures |d| == n && forall i | 0 <= i < n :: d[i] == 0
  {
    if n == 0 then [] else [0] + Zeros(n - 1)
  }

  /** The decimal digits of a natural number. */
  function NatDigits(n: nat): (d: seq<Digit>)
    ensures d != [] && (|d| > 1 ==> d[0] != 0)
  {
    if n < 10 then [n as Digit] else NatDigits(n / 10) + [(n % 10) as Digit]
  }

  /** ECMAScript Number::toString on a non-zero magnitude (ECMA-262, Number::toString). */
  function MagnitudeText(d: seq<Digit>, n: int): Text
    requires d != []
  {
    var k := |d|;
    if k <= n <= 21 then DigitText(d + Zeros(n - k))
    else if 0 < n <= 21 then DigitText(d[..n]) + [DOT] + DigitText(d[n..])
    else if -6 < n <= 0 then DigitText([0]) + [DOT] + DigitText(Zeros(-n) + d)
    else
      DigitText(d[..1]) + (if k == 1 then [] else [DOT] + DigitText(d[1..]))
      + [LOWER_E] + (if n - 1 < 0 then [MINUS] + DigitText(NatDigits(1 - n)) else [PLUS] + DigitText(NatDigits(n - 1)))
  }

  /** JSON.stringify of a number: -0 prints as 0, the infinities as null. */
  function NumberText(x: Number): Text {
    match x
    case Zero(_) => [DIGIT_0]
    case Decimal(neg, d, n) => (if neg then [MINUS] else []) + MagnitudeText(d, n)
    case Infinite(_) => T("null")
  }

  function HexUnit(h: int): Unit
    requires 0 <= h < 16
  {
    if h < 10 then (0x30 + h) as Unit else (0x57 + h) as Unit
  }

  function UnicodeEscape(u: Unit): Text {
    var n := u as int;
    [BACKSLASH, LOWER_U, HexUnit(n / 4096), HexUnit(n / 256 % 16), HexUnit(n / 16 % 16), HexUnit(n % 16)]
  }

  predicate HighSurrogate(u: Unit) { 0xD800 <= u < 0xDC00 }
  predicate LowSurrogate(u: Unit) { 0xDC00 <= u < 0xE000 }

  /** A well-formed surrogate pair at the head. */
  predicate StartsPair(s: Text) {
    |s| >= 2 && HighSurrogate(s[0]) && LowSurrogate(s[1])
  }

  /** The text that stands for one code unit that is not half of a pair. */
  function EscapeUnit(u: Unit): Text {
    if u == QUOTE || u == BACKSLASH then [BACKSLASH, u]
    else if u == 0x08 then [BACKSLASH, 0x62]
    else if u == 0x09 then [BACKSLASH, 0x74]
    else if u == 0x0A then [BACKSLASH, 0x6E]
    else if u == 0x0C then [BACKSLASH, 0x66]
    else if u == 0x0D then [BACKSLASH, 0x72]
    else if u < 0x20 || HighSurrogate(u) || LowSurrogate(u) then UnicodeEscape(u)
    else [u]
  }

  function Escape(s: Text): Text {
    if s == [] then []
    else if StartsPair(s) then s[..2] + Escape(s[2..])
    else EscapeUnit(s[0]) + Escape(s[1..])
  }

  /** JSON.stringify of a string. */
  function Quote(s: Text): Text {
    [QUOTE] + Escape(s) + [QUOTE]
  }

  /** `canonicalize`. */
  function Canonicalize(v: Json): Text
    decreases v, 0
  {
    match v
    case Undefined => []
    case Null => T("null")
    case Bool(b) => if b then T("true") else T("false")
    case Num(x) => NumberText(x)
    case Str(t) => Quote(t)
    case Arr(items) => [LBRACKET] + ItemsText(items) + [RBRACKET]
    case Obj(ms) =>
      SortedKeysAreKeys(ms);
      [LBRACE] + MembersText(ms, SortedKeys(ms)) + [RBRACE]
  }

  function ItemsText(items: seq<Json>): Text
    decreases items, 0
  {
    if items == [] then []
    else if |items| == 1 then Canonicalize(items[0])
    else Canonicalize(items[0]) + [COMMA] + ItemsText(items[1..])
  }

  function MembersText(ms: seq<Member>, ks: seq<Text>): Text
    requires forall k | k in ks :: Has(ms, k)
    decreases ms, |ks|
  {
    if ks == [] then []
    else
      var head := Quote(ks[0]) + [COLON] + Canonicalize(ms[Find(ms, ks[0])].value);
      if |ks| == 1 then head else head + [COMMA] + MembersText(ms, ks[1..])
  }

  // ------------------------------------------------------------ normal form

  /**
   * What is left of a value once it has been printed: names in code-unit order,
   * undefined members gone, one zero, and null where a number was not finite.
   */
  function Norm(v: Json): Json
    decreases v, 0
  {
    match v
    case Num(Zero(_)) => Num(Zero(false))
    case Num(Infinite(_)) => Null
    case Arr(items) => Arr(NormItems(items))
    case Obj(ms) =>
      SortedKeysAreKeys(ms);
      Obj(NormMembers(ms, SortedKeys(ms)))
    case _ => v
  }

  function NormItems(items: seq<Json>): (r: seq<Json>)
    ensures |r| == |items| && forall i | 0 <= i < |r| :: r[i] == Norm(items[i])
    decreases items, 0
  {
    if items == [] then [] else [Norm(items[0])] + NormItems(items[1..])
  }

  function NormMembers(ms: seq<Member>, ks: seq<Text>): (r: seq<Member>)
    requires forall k | k in ks :: Has(ms, k)
    ensures Keys(r) == ks
    ensures forall i | 0 <= i < |ks| :: r[i] == Member(ks[i], Norm(ms[Find(ms, ks[i])].value))
    decreases ms, |ks|
  {
    if ks == [] then []
    else [Member(ks[0], Norm(ms[Find(ms, ks[0])].value))] + NormMembers(ms, ks[1..])
  }

  // --------------------------------------------------------------- deepEqual

  /** `===` on numbers: the two zeros are equal. */
  predicate SameNumber(x: Number, y: Number) {
    x == y || (x.Zero? && y.Zero?)
  }

  /** The recursive structural comparison of sqlite/src/interrupts.ts. */
  predicate DeepEqual(a: Json, b: Json)
    decreases a, 0
  {
    match (a, b)
    case (Num(x), Num(y)) => SameNumber(x, y)
    case (Arr(x), Arr(y)) => |x| == |y| && ItemsEqual(x, y)
    case (Obj(x), Obj(y)) => |x| == |y| && MembersEqual(x, y, 0)
    case (Obj(_), _) => false
    case (Arr(_), _) => false
    case _ => a == b
  }

  predicate ItemsEqual(x: seq<Json>, y: seq<Json>)
    requires |x| == |y|
    decreases x, 0
  {
    x == [] || (DeepEqual(x[0], y[0]) && ItemsEqual(x[1..], y[1..]))
  }

  predicate MembersEqual(x: seq<Member>, y: seq<Member>, i: nat)
    requires i <= |x|
    decreases x, |x| - i
  {
    i == |x|
    || (&& Has(y, x[i].key)
        && DeepEqual(x[i].value, y[Find(y, x[i].key)].value)
        && MembersEqual(x, y, i + 1))
  }

  lemma {:induction false} ItemsEqualPointwise(x: seq<Json>, y: seq<Json>)
    requires |x| == |y|
    ensures ItemsEqual(x, y) <==> forall i | 0 <= i < |x| :: DeepEqual(x[i], y[i])
  {
    if x != [] {
      ItemsEqualPointwise(x[1..], y[1..]);
      if forall i | 0 <= i < |x[1..]| :: DeepEqual(x[1..][i], y[1..][i]) {
        forall i | 1 <= i < |x| ensures DeepEqual(x[i], y[i]) {
          assert DeepEqual(x[1..][i - 1], y[1..][i - 1]);
        }
      }
      if forall i | 0 <= i < |x| :: DeepEqual(x[i], y[i]) {
        forall i | 0 <= i < |x[1..]| ensures DeepEqual(x[1..][i], y[1..][i]) {
          assert DeepEqual(x[i + 1], y[i + 1]);
        }
      }
    }
  }

  lemma {:induction false} MembersEqualPointwise(x: seq<Member>, y: seq<Member>, i: nat)
    requires i <= |x|
    ensures MembersEqual(x, y, i) <==>
            forall j | i <= j < |x| :: Has(y, x[j].key) && DeepEqual(x[j].value, y[Find(y, x[j].key)].value)
    decreases |x| - i
  {
    if i < |x| { MembersEqualPointwise(x, y, i + 1); }
  }

  // ------------------------------------------- deepEqual is sameness of Norm

  lemma {:induction false} SortedKeysOfJson(ms: seq<Member>)
    requires Distinct(Keys(ms)) && forall i | 0 <= i < |ms| :: IsJson(ms[i].value)
    ensures SortedKeys(ms) == Sort(Keys(ms), TextLe)
    ensures multiset(SortedKeys(ms)) == multiset(Keys(ms))
    ensures forall k :: k in SortedKeys(ms) <==> Has(ms, k)
    ensures forall k | k in SortedKeys(ms) :: Has(ms, k)
  {
    AllDefined(ms);
    TextLeIsTotal();
    SortSorts(Keys(ms), TextLe);
  }

  /** Members of the same number, each named in the other: the same names. */
  lemma {:induction false} SameNames(x: seq<Member>, y: seq<Member>)
    requires Distinct(Keys(x)) && Distinct(Keys(y)) && |x| == |y|
    requires forall j | 0 <= j < |x| :: Has(y, x[j].key)
    ensures multiset(Keys(x)) == multiset(Keys(y))
  {
    var kx, ky := set k | k in Keys(x), set k | k in Keys(y);
    DistinctCardinality(Keys(x));
    DistinctCardinality(Keys(y));
    assert kx <= ky by {
      forall k | k in kx ensures k in ky {
        var j :| 0 <= j < |x| && Keys(x)[j] == k;
        assert Has(y, x[j].key);
      }
    }
    SubsetOfSameSize(kx, ky);
    forall k ensures k in Keys(x) <==> k in Keys(y) {
      assert k in kx <==> k in ky;
    }
    DistinctSameElements(Keys(x), Keys(y));
  }

  lemma {:induction false} DistinctCardinality(s: seq<Text>)
    requires Distinct(s)
    ensures |set k | k in s| == |s|
  {
    if s != [] {
      DistinctCardinality(s[1..]);
      assert (set k | k in s) == (set k | k in s[1..]) + {s[0]};
    }
  }

  lemma {:induction false} SubsetOfSameSize<E>(a: set<E>, b: set<E>)
    requires a <= b && |a| == |b|
    ensures a == b
  {
    assert |b - a| == |b| - |a|;
  }

  lemma {:induction false} DeepEqualIsNormEqual(a: Json, b: Json)
    requires IsJson(a) && IsJson(b)
    ensures DeepEqual(a, b) <==> Norm(a) == Norm(b)
    decreases a
  {
    match (a, b) {
      case (Arr(x), Arr(y)) =>
        if |x| == |y| {
          ItemsEqualPointwise(x, y);
          forall i | 0 <= i < |x| ensures DeepEqual(x[i], y[i]) <==> Norm(x[i]) == Norm(y[i]) {
            DeepEqualIsNormEqual(x[i], y[i]);
          }
          if NormItems(x) == NormItems(y) {
            forall i | 0 <= i < |x| ensures DeepEqual(x[i], y[i]) {
              assert NormItems(x)[i] == NormItems(y)[i];
            }
          }
        }
      case (Obj(x), Obj(y)) =>
        forall i, j | 0 <= i < |x| && 0 <= j < |y|
          ensures DeepEqual(x[i].value, y[j].value) <==> Norm(x[i].value) == Norm(y[j].value)
        {
          DeepEqualIsNormEqual(x[i].value, y[j].value);
        }
        if |x| == |y| { MembersEqualPointwise(x, y, 0); }
        SortedKeysOfJson(x);
        SortedKeysOfJson(y);
        if DeepEqual(a, b) {
          SameMembersSameNorm(x, y);
        } else if Norm(a) == Norm(b) {
          SameNormSameMembers(x, y);
        }
      case _ =>
    }
  }

  lemma {:induction false} SameMembersSameNorm(x: seq<Member>, y: seq<Member>)
    requires IsJson(Obj(x)) && IsJson(Obj(y)) && |x| == |y|
    requires forall k | k in SortedKeys(x) :: Has(x, k)
    requires forall k | k in SortedKeys(y) :: Has(y, k)
    requires forall j | 0 <= j < |x| :: Has(y, x[j].key)
    requires forall j | 0 <= j < |x| :: Norm(x[j].value) == Norm(y[Find(y, x[j].key)].value)
    ensures NormMembers(x, SortedKeys(x)) == NormMembers(y, SortedKeys(y))
  {
    SortedKeysOfJson(x);
    SortedKeysOfJson(y);
    SameNames(x, y);
    TextLeIsTotal();
    TextLeDistinguishes(Keys(x));
    SortOfPermutation(Keys(x), Keys(y), TextLe);
    assert SortedKeys(x) == SortedKeys(y);
  }

  lemma {:induction false} SameNormSameMembers(x: seq<Member>, y: seq<Member>)
    requires IsJson(Obj(x)) && IsJson(Obj(y))
    requires forall k | k in SortedKeys(x) :: Has(x, k)
    requires forall k | k in SortedKeys(y) :: Has(y, k)
    requires NormMembers(x, SortedKeys(x)) == NormMembers(y, SortedKeys(y))
    ensures |x| == |y| && forall j | 0 <= j < |x| :: Has(y, x[j].key)
    ensures forall j | 0 <= j < |x| :: Norm(x[j].value) == Norm(y[Find(y, x[j].key)].value)
  {
    SameNormSameNames(x, y);
    forall j | 0 <= j < |x|
      ensures Has(y, x[j].key) && Norm(x[j].value) == Norm(y[Find(y, x[j].key)].value)
    {
      FindDistinct(x, j);
      SameNormSameValue(x, y, SortedKeys(x), x[j].key);
    }
  }

  lemma {:induction false} SameNormSameNames(x: seq<Member>, y: seq<Member>)
    requires IsJson(Obj(x)) && IsJson(Obj(y))
    requires forall k | k in SortedKeys(x) :: Has(x, k)
    requires forall k | k in SortedKeys(y) :: Has(y, k)
    requires NormMembers(x, SortedKeys(x)) == NormMembers(y, SortedKeys(y))
    ensures SortedKeys(x) == SortedKeys(y) && |x| == |y|
    ensures forall k :: Has(x, k) <==> k in SortedKeys(x)
    ensures forall k :: Has(y, k) <==> k in SortedKeys(x)
  {
    assert Keys(NormMembers(x, SortedKeys(x))) == SortedKeys(x);
    SortedKeysOfJson(x);
    SortedKeysOfJson(y);
    SameSize(SortedKeys(x), Keys(x));
    SameSize(SortedKeys(y), Keys(y));
  }

  lemma {:induction false} SameNormSameValue(x: seq<Member>, y: seq<Member>, ks: seq<Text>, k: Text)
    requires forall k | k in ks :: Has(x, k) && Has(y, k)
    requires NormMembers(x, ks) == NormMembers(y, ks) && k in ks
    ensures Has(x, k) && Has(y, k) && Norm(x[Find(x, k)].value) == Norm(y[Find(y, k)].value)
  {
    var p :| 0 <= p < |ks| && ks[p] == k;
    assert NormMembers(x, ks)[p] == NormMembers(y, ks)[p];
  }
}
