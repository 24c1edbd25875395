/**
 * Text as the host sees it (sequences of UTF-16 code units), the order
 * Array.prototype.sort puts on it, and a stable sort with the one fact every
 * client needs: a sorted arrangement of distinguishable elements is unique.
 */
module Ordering {

  newtype Unit = u: int | 0 <= u < 0x1_0000
  type Text = seq<Unit>

  /** Spells an ASCII literal as text. */
  function T(s: string): (t: Text)
    requires forall i | 0 <= i < |s| :: s[i] as int < 0x80
    ensures |t| == |s| && forall i {:trigger t[i]} | 0 <= i < |s| :: t[i] == s[i] as int as Unit
  {
    seq(|s|, i requires 0 <= i < |s| => s[i] as int as Unit)
  }

  /** Strict code-unit order, the order of `<` on strings. */
  predicate TextLess(a: Text, b: Text) {
    if b == [] then false
    else if a == [] then true
    else if a[0] != b[0] then a[0] < b[0]
    else TextLess(a[1..], b[1..])
  }

  predicate TextLe(a: Text, b: Text) {
    a == b || TextLess(a, b)
  }

  lemma {:induction false} TextTrichotomy(a: Text, b: Text)
    ensures TextLess(a, b) || a == b || TextLess(b, a)
    ensures !(TextLess(a, b) && TextLess(b, a))
    ensures a == b ==> !TextLess(a, b)
  {
    if a != [] && b != [] && a[0] == b[0] {
      TextTrichotomy(a[1..], b[1..]);
      assert a == [a[0]] + a[1..] && b == [b[0]] + b[1..];
    }
  }

  lemma {:induction false} TextLessTransitive(a: Text, b: Text, c: Text)
    requires TextLess(a, b) && TextLess(b, c)
    ensures TextLess(a, c)
  {
    if a != [] && a[0] == b[0] == c[0] {
      TextLessTransitive(a[1..], b[1..], c[1..]);
    }
  }

  ghost predicate TotalPreorder<E(!new)>(le: (E, E) -> bool) {
    && (forall x, y :: le(x, y) || le(y, x))
    && (forall x, y, z :: le(x, y) && le(y, z) ==> le(x, z))
  }

  lemma {:induction false} TextLeIsTotal()
    ensures TotalPreorder(TextLe)
  {
    forall x: Text, y: Text ensures TextLe(x, y) || TextLe(y, x) {
      TextTrichotomy(x, y);
    }
    forall x: Text, y: Text, z: Text | TextLe(x, y) && TextLe(y, z) ensures TextLe(x, z) {
      if x != y && y != z { TextLessTransitive(x, y, z); }
    }
  }

  ghost predicate Sorted<E>(s: seq<E>, le: (E, E) -> bool) {
    forall i, j | 0 <= i < j < |s| :: le(s[i], s[j])
  }

  /** No two different elements of `s` tie under `le`. */
  ghost predicate Distinguishes<E>(le: (E, E) -> bool, s: seq<E>) {
    forall x, y | x in s && y in s && le(x, y) && le(y, x) :: x == y
  }

  ghost predicate Distinct<E>(s: seq<E>) {
    forall i, j | 0 <= i < j < |s| :: s[i] != s[j]
  }

  /** Puts `x` after the elements that may precede it, so equals keep their order. */
  function Insert<E>(x: E, s: seq<E>, le: (E, E) -> bool): seq<E> {
    if s == [] then [x]
    else if le(s[|s| - 1], x) then s + [x]
    else Insert(x, s[..|s| - 1], le) + [s[|s| - 1]]
  }

  /** Array.prototype.sort: stable, driven by the comparator. */
  function Sort<E>(s: seq<E>, le: (E, E) -> bool): seq<E> {
    if s == [] then [] else Insert(s[|s| - 1], Sort(s[..|s| - 1], le), le)
  }

  lemma {:induction false} InsertIsPermutation<E>(x: E, s: seq<E>, le: (E, E) -> bool)
    ensures multiset(Insert(x, s, le)) == multiset(s) + multiset{x}
  {
    if s != [] && !le(s[|s| - 1], x) {
      InsertIsPermutation(x, s[..|s| - 1], le);
      assert s == s[..|s| - 1] + [s[|s| - 1]];
    }
  }

  lemma {:induction false} InsertKeepsSorted<E(!new)>(x: E, s: seq<E>, le: (E, E) -> bool)
    requires TotalPreorder(le) && Sorted(s, le)
    ensures Sorted(Insert(x, s, le), le)
  {
    if s != [] && !le(s[|s| - 1], x) {
      var front, last := s[..|s| - 1], s[|s| - 1];
      InsertKeepsSorted(x, front, le);
      InsertStaysBelow(x, front, last, le);
    }
  }

  lemma {:induction false} InsertStaysBelow<E(!new)>(x: E, s: seq<E>, top: E, le: (E, E) -> bool)
    requires le(x, top) && forall y | y in s :: le(y, top)
    ensures forall y | y in Insert(x, s, le) :: le(y, top)
  {
    InsertIsPermutation(x, s, le);
    forall y | y in Insert(x, s, le) ensures le(y, top) {
      assert y in multiset(Insert(x, s, le));
      if y != x { assert y in multiset(s); }
    }
  }

  /** Sorting permutes and orders. */
  lemma {:induction false} SortSorts<E(!new)>(s: seq<E>, le: (E, E) -> bool)
    requires TotalPreorder(le)
    ensures multiset(Sort(s, le)) == multiset(s) && Sorted(Sort(s, le), le)
    ensures |Sort(s, le)| == |s| && forall x :: x in Sort(s, le) <==> x in s
  {
    if s != [] {
      var front, last := s[..|s| - 1], s[|s| - 1];
      SortSorts(front, le);
      InsertIsPermutation(last, Sort(front, le), le);
      InsertKeepsSorted(last, Sort(front, le), le);
      assert s == front + [last];
    }
    assert |multiset(Sort(s, le))| == |multiset(s)|;
    forall x ensures x in Sort(s, le) <==> x in s {
      assert x in Sort(s, le) <==> x in multiset(Sort(s, le));
      assert x in s <==> x in multiset(s);
    }
  }

  /** Two sorted arrangements of the same distinguishable elements are one sequence. */
  lemma {:induction false} SortedUnique<E(!new)>(a: seq<E>, b: seq<E>, le: (E, E) -> bool)
    requires Sorted(a, le) && Sorted(b, le)
    requires multiset(a) == multiset(b) && Distinguishes(le, a)
    ensures a == b
    decreases |a|
  {
    SameSize(a, b);
    if a != [] {
      PeelLast(a, b, le);
      SortedUnique(a[..|a| - 1], b[..|b| - 1], le);
      assert a == a[..|a| - 1] + [a[|a| - 1]] && b == b[..|b| - 1] + [b[|b| - 1]];
    }
  }

  lemma {:induction false} PeelLast<E(!new)>(a: seq<E>, b: seq<E>, le: (E, E) -> bool)
    requires a != [] && b != [] && Sorted(a, le) && Sorted(b, le)
    requires multiset(a) == multiset(b) && Distinguishes(le, a)
    ensures a[|a| - 1] == b[|b| - 1]
    ensures Sorted(a[..|a| - 1], le) && Sorted(b[..|b| - 1], le)
    ensures multiset(a[..|a| - 1]) == multiset(b[..|b| - 1]) && Distinguishes(le, a[..|a| - 1])
  {
    LastsAgree(a, b, le);
    FrontMultiset(a);
    FrontMultiset(b);
    SortedPrefix(a, le);
    SortedPrefix(b, le);
    DistinguishesPrefix(le, a);
  }

  lemma {:induction false} SameSize<E>(a: seq<E>, b: seq<E>)
    requires multiset(a) == multiset(b)
    ensures |a| == |b|
  {
    assert |a| == |multiset(a)| == |multiset(b)| == |b|;
  }

  lemma {:induction false} SortedPrefix<E>(s: seq<E>, le: (E, E) -> bool)
    requires s != [] && Sorted(s, le)
    ensures Sorted(s[..|s| - 1], le)
  {}

  lemma {:induction false} DistinguishesPrefix<E>(le: (E, E) -> bool, s: seq<E>)
    requires s != [] && Distinguishes(le, s)
    ensures Distinguishes(le, s[..|s| - 1])
  {
    forall x | x in s[..|s| - 1] ensures x in s {}
  }

  lemma {:induction false} FrontMultiset<E>(s: seq<E>)
    requires s != []
    ensures multiset(s[..|s| - 1]) == multiset(s) - multiset{s[|s| - 1]}
  {
    assert s == s[..|s| - 1] + [s[|s| - 1]];
  }

  lemma {:induction false} LastsAgree<E(!new)>(a: seq<E>, b: seq<E>, le: (E, E) -> bool)
    requires a != [] && b != [] && Sorted(a, le) && Sorted(b, le)
    requires multiset(a) == multiset(b) && Distinguishes(le, a)
    ensures a[|a| - 1] == b[|b| - 1]
  {
    var x, y := a[|a| - 1], b[|b| - 1];
    assert x in multiset(a) && y in multiset(b);
    LastIsMaximal(a, le, y);
    LastIsMaximal(b, le, x);
  }

  lemma {:induction false} LastIsMaximal<E(!new)>(s: seq<E>, le: (E, E) -> bool, x: E)
    requires s != [] && Sorted(s, le) && x in multiset(s)
    ensures x in s && (x == s[|s| - 1] || le(x, s[|s| - 1]))
  {
    assert x in s;
    var i :| 0 <= i < |s| && s[i] == x;
  }

  /** Sorting forgets the order of the input. */
  lemma {:induction false} SortOfPermutation<E(!new)>(a: seq<E>, b: seq<E>, le: (E, E) -> bool)
    requires TotalPreorder(le) && multiset(a) == multiset(b) && Distinguishes(le, a)
    ensures Sort(a, le) == Sort(b, le)
  {
    SortSorts(a, le);
    SortSorts(b, le);
    SortedUnique(Sort(a, le), Sort(b, le), le);
  }

  /** A stable sort leaves sorted input alone. */
  lemma {:induction false} SortOfSorted<E(!new)>(s: seq<E>, le: (E, E) -> bool)
    requires Sorted(s, le)
    ensures Sort(s, le) == s
  {
    if s != [] {
      var front, last := s[..|s| - 1], s[|s| - 1];
      SortOfSorted(front, le);
      assert s == front + [last];
    }
  }

  /** Inserted one after the other, tied elements come to stand at one place in the order they were inserted. */
  lemma {:induction false} TiedInsertsShow<E(!new)>(x: E, y: E, s: seq<E>, le: (E, E) -> bool) returns (i: nat)
    requires TotalPreorder(le) && le(x, y) && le(y, x)
    ensures var xy, yx := Insert(y, Insert(x, s, le), le), Insert(x, Insert(y, s, le), le);
            i < |xy| && i < |yx| && xy[i] == x && yx[i] == y
    decreases |s|
  {
    if s == [] {
      i := 0;
    } else {
      var front, last := s[..|s| - 1], s[|s| - 1];
      if le(last, x) {
        i := |s|;
      } else {
        i := TiedInsertsShow(x, y, front, le);
        assert (Insert(x, front, le) + [last])[..|Insert(x, front, le)|] == Insert(x, front, le);
        assert (Insert(y, front, le) + [last])[..|Insert(y, front, le)|] == Insert(y, front, le);
      }
    }
  }

  lemma {:induction false} SortOfTwoMore<E>(s: seq<E>, x: E, y: E, le: (E, E) -> bool)
    ensures Sort(s + [x, y], le) == Insert(y, Insert(x, Sort(s, le), le), le)
  {
    assert (s + [x, y])[..|s| + 1] == s + [x] && (s + [x])[..|s|] == s;
  }

  /** A stable sort shows in which order the last two came, if they tie. */
  lemma {:induction false} TiesShow<E(!new)>(s: seq<E>, x: E, y: E, le: (E, E) -> bool) returns (i: nat)
    requires TotalPreorder(le) && le(x, y) && le(y, x)
    ensures var xy, yx := Sort(s + [x, y], le), Sort(s + [y, x], le);
            i < |xy| && i < |yx| && xy[i] == x && yx[i] == y
  {
    i := TiedInsertsShow(x, y, Sort(s, le), le);
    SortOfTwoMore(s, x, y, le);
    SortOfTwoMore(s, y, x, le);
  }

  lemma {:induction false} TakenOut<E>(s: seq<E>, x: E) returns (rest: seq<E>)
    requires x in s
    ensures multiset(s) == multiset(rest) + multiset{x}
  {
    var i :| 0 <= i < |s| && s[i] == x;
    rest := s[..i] + s[i + 1..];
    assert s == s[..i] + [s[i]] + s[i + 1..];
  }

  /** Two different elements can be brought to the end, either way round. */
  lemma {:induction false} TwoTakenOut<E>(s: seq<E>, x: E, y: E) returns (rest: seq<E>)
    requires x in s && y in s && x != y
    ensures multiset(rest + [x, y]) == multiset(s) && multiset(rest + [y, x]) == multiset(s)
  {
    var without := TakenOut(s, x);
    assert y in multiset(s);
    assert y in without;
    rest := TakenOut(without, y);
  }

  /** Distinct sequences over the same elements are permutations of each other. */
  lemma {:induction false} DistinctSameElements<E>(a: seq<E>, b: seq<E>)
    requires Distinct(a) && Distinct(b)
    requires forall x :: x in a <==> x in b
    ensures multiset(a) == multiset(b)
  {
    forall x ensures multiset(a)[x] == multiset(b)[x] {
      DistinctCountsOnce(a, x);
      DistinctCountsOnce(b, x);
    }
  }

  lemma {:induction false} DistinctCountsOnce<E>(s: seq<E>, x: E)
    requires Distinct(s)
    ensures multiset(s)[x] == if x in s then 1 else 0
  {
    if s != [] {
      DistinctCountsOnce(s[..|s| - 1], x);
      assert s == s[..|s| - 1] + [s[|s| - 1]];
    }
  }

  lemma {:induction false} TextLeDistinguishes(s: seq<Text>)
    ensures Distinguishes(TextLe, s)
  {
    forall x, y | x in s && y in s && TextLe(x, y) && TextLe(y, x) ensures x == y {
      TextTrichotomy(x, y);
    }
  }
}
