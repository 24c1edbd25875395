/**
 * The bottom-up Merkle root of the audit checkpoints. The loop pairs a level at
 * a time and promotes an odd last node; it computes the tree that splits at the
 * largest power of two below the number of leaves, the shape of section 2.1 of
 * RFC 6962 without its prefix bytes. The hash is a parameter: nothing is asked
 * of it but fixed-length hexadecimal output and, where a root is to bind its
 * leaves, that it does not collide on the texts actually hashed.
 */
module Merkle {
  import opened Ordering

  type Hash = Text -> Text

  predicate IsLowerHex(u: Unit) { 0x30 <= u <= 0x39 || 0x61 <= u <= 0x66 }

  /** The form of sha256Hex output. */
  predicate IsDigest(t: Text) {
    |t| == 64 && forall i | 0 <= i < 64 :: IsLowerHex(t[i])
  }

  ghost predicate YieldsDigests(h: Hash) {
    forall s :: IsDigest(h(s))
  }

  /** The digits of a digest are 0 to 9 and a to f, and there are hashes that yield digests. */
  lemma {:induction false} DigestsSpelled(u: Unit) returns (h: Hash)
    ensures IsLowerHex(u) <==> exists k :: 0 <= k < 16 && T("0123456789abcdef")[k] == u
    ensures YieldsDigests(h)
  {
    var digits := T("0123456789abcdef");
    assert "0123456789abcdef"[0] == '0';
    if IsLowerHex(u) {
      var k := if u <= 0x39 then u as int - 0x30 else u as int - 0x57;
      assert digits[k] == u;
    }
    h := (s: Text) => seq(64, i requires 0 <= i < 64 => 0x30 as Unit);
  }

  ghost predicate CollisionFree(h: Hash, texts: set<Text>) {
    forall x, y {:trigger h(x), h(y)} | x in texts && y in texts && h(x) == h(y) :: x == y
  }

  // ------------------------------------------------------------ the source loop

  /** One pass of the inner loop: neighbours hashed together, an odd last one promoted. */
  function PairUp(h: Hash, level: seq<Text>): (next: seq<Text>)
    ensures |next| == (|level| + 1) / 2
  {
    if |level| <= 1 then level else [h(level[0] + level[1])] + PairUp(h, level[2..])
  }

  lemma {:induction false} PairUpAt(h: Hash, level: seq<Text>, j: nat)
    requires 2 * j < |level|
    ensures PairUp(h, level)[j]
         == if 2 * j + 1 < |level| then h(level[2 * j] + level[2 * j + 1]) else level[2 * j]
    decreases j
  {
    if j > 0 { PairUpAt(h, level[2..], j - 1); }
  }

  /** What the inner loop has built is the front of the next level. */
  predicate PairedUpTo(h: Hash, level: seq<Text>, next: seq<Text>) {
    |next| <= |PairUp(h, level)| && next == PairUp(h, level)[..|next|]
  }

  lemma {:induction false} PairUpMore(h: Hash, level: seq<Text>, done: seq<Text>, i: nat, more: seq<Text>)
    requires i == 2 * |done| < |level| && PairedUpTo(h, level, done)
    requires more == done + [if i + 1 < |level| then h(level[i] + level[i + 1]) else level[i]]
    ensures PairedUpTo(h, level, more)
  {
    PairUpAt(h, level, |done|);
  }

  lemma {:induction false} PairUpAll(h: Hash, level: seq<Text>, next: seq<Text>)
    requires PairedUpTo(h, level, next) && 2 * |next| >= |level|
    ensures next == PairUp(h, level)
  {}

  function LevelRoot(h: Hash, level: seq<Text>): Text
    requires level != []
    decreases |level|
  {
    if |level| == 1 then level[0] else LevelRoot(h, PairUp(h, level))
  }

  method MerkleRoot(h: Hash, leafHashes: seq<Text>) returns (root: Text)
    ensures root == Root(h, leafHashes)
  {
    if |leafHashes| == 0 { return h([]); }
    var level := leafHashes;
    while |level| > 1
      invariant level != [] && LevelRoot(h, level) == LevelRoot(h, leafHashes)
      decreases |level|
    {
      var next: seq<Text> := [];
      var i := 0;
      while i < |level|
        invariant i == 2 * |next| && PairedUpTo(h, level, next)
      {
        ghost var done := next;
        var left := level[i];
        next := next + [if i + 1 < |level| then h(left + level[i + 1]) else left];
        PairUpMore(h, level, done, i, next);
        i := i + 2;
      }
      PairUpAll(h, level, next);
      level := next;
    }
    LastLevel(h, leafHashes, level);
    root := level[0];
  }

  lemma {:induction false} LastLevel(h: Hash, leaves: seq<Text>, level: seq<Text>)
    requires leaves != [] && |level| == 1 && LevelRoot(h, level) == LevelRoot(h, leaves)
    ensures level[0] == Root(h, leaves)
  {
    LevelRootIsTree(h, leaves);
  }

  // ------------------------------------------------------------ the tree it builds

  /** The largest power of two below `n`. */
  function SplitPoint(n: nat): (k: nat)
    requires n >= 2
    ensures 0 < k < n <= 2 * k && (k == 1 || k % 2 == 0)
  {
    if n == 2 then 1 else 2 * SplitPoint((n + 1) / 2)
  }

  function Tree(h: Hash, leaves: seq<Text>): Text
    requires leaves != []
    decreases |leaves|
  {
    if |leaves| == 1 then leaves[0]
    else
      var k := SplitPoint(|leaves|);
      h(Tree(h, leaves[..k]) + Tree(h, leaves[k..]))
  }

  function Root(h: Hash, leaves: seq<Text>): Text {
    if leaves == [] then h([]) else Tree(h, leaves)
  }

  /** SplitPoint is a power of two; the bounds above make it the largest below n. */
  predicate PowerOfTwo(k: nat) {
    k == 1 || (k > 1 && k % 2 == 0 && PowerOfTwo(k / 2))
  }

  lemma {:induction false} SplitPointIsPowerOfTwo(n: nat)
    requires n >= 2
    ensures PowerOfTwo(SplitPoint(n))
    decreases n
  {
    if n > 2 { SplitPointIsPowerOfTwo((n + 1) / 2); }
  }

  lemma {:induction false} PairUpFront(h: Hash, level: seq<Text>, m: nat)
    requires 2 * m <= |level|
    ensures PairUp(h, level)[..m] == PairUp(h, level[..2 * m])
  {
    var next, front := PairUp(h, level), PairUp(h, level[..2 * m]);
    assert |front| == m;
    forall j | 0 <= j < m ensures next[j] == front[j] {
      PairUpAt(h, level, j);
      PairUpAt(h, level[..2 * m], j);
    }
  }

  lemma {:induction false} PairUpBack(h: Hash, level: seq<Text>, m: nat)
    requires 2 * m <= |level|
    ensures PairUp(h, level)[m..] == PairUp(h, level[2 * m..])
    decreases m
  {
    if m == 0 {
      assert level[0..] == level;
    } else {
      PairUpBack(h, level[2..], m - 1);
      assert level[2..][2 * (m - 1)..] == level[2 * m..];
      PairUpTail(h, level);
      assert PairUp(h, level)[1..][m - 1..] == PairUp(h, level)[m..];
    }
  }

  lemma {:induction false} PairUpTail(h: Hash, level: seq<Text>)
    requires |level| >= 2
    ensures PairUp(h, level)[1..] == PairUp(h, level[2..])
  {}

  lemma {:induction false} LevelRootIsTree(h: Hash, leaves: seq<Text>)
    requires leaves != []
    ensures LevelRoot(h, leaves) == Tree(h, leaves)
    decreases |leaves|, 0
  {
    if |leaves| == 2 {
      assert leaves[2..] == [];
      assert PairUp(h, leaves) == [h(leaves[0] + leaves[1])];
      TreeOfTwo(h, leaves[0], leaves[1]);
      assert leaves == [leaves[0], leaves[1]];
    } else if |leaves| > 2 {
      var k, next := SplitPoint(|leaves|), PairUp(h, leaves);
      var m := SplitPoint(|next|);
      assert k == 2 * m;
      PairUpFront(h, leaves, m);
      PairUpBack(h, leaves, m);
      LevelRootIsTree(h, next);
      TreeOfPairUp(h, leaves[..k]);
      TreeOfPairUp(h, leaves[k..]);
    }
  }

  lemma {:induction false} TreeOfPairUp(h: Hash, level: seq<Text>)
    requires level != []
    ensures Tree(h, PairUp(h, level)) == Tree(h, level)
    decreases |level|, 1
  {
    LevelRootIsTree(h, level);
    LevelRootIsTree(h, PairUp(h, level));
  }

  lemma {:induction false} TreeOfTwo(h: Hash, x: Text, y: Text)
    ensures Tree(h, [x, y]) == h(x + y)
  {
    assert SplitPoint(2) == 1;
    assert [x, y][..1] == [x] && [x, y][1..] == [y];
  }

  /** `next` holds the hash of each two neighbours of a level, left before right, and an odd last one as it is. */
  ghost predicate IsPass(h: Hash, level: seq<Text>, next: seq<Text>) {
    && |level| <= 2 * |next| <= |level| + 1
    && (forall j | 0 <= 2 * j < |level| - 1 :: next[j] == h(level[2 * j] + level[2 * j + 1]))
    && (|level| % 2 == 1 ==> next[|level| / 2] == level[|level| - 1])
  }

  /** Levels from the leaves to a single node, each a pass over the one before. */
  ghost predicate IsLadder(h: Hash, leaves: seq<Text>, levels: seq<seq<Text>>) {
    && levels != [] && levels[0] == leaves && |levels[|levels| - 1]| == 1
    && forall i | 0 < i < |levels| :: IsPass(h, levels[i - 1], levels[i])
  }

  lemma {:induction false} PassIsPairUp(h: Hash, level: seq<Text>, next: seq<Text>)
    requires IsPass(h, level, next)
    ensures next == PairUp(h, level)
  {
    forall j | 0 <= j < |next| ensures next[j] == PairUp(h, level)[j] {
      PairUpAt(h, level, j);
      if 2 * j + 1 >= |level| { assert j == |level| / 2 && |level| % 2 == 1; }
    }
  }

  /** Whatever ladder of levels is built over the leaves, its last node is the root. */
  lemma {:induction false} LadderEndsInRoot(h: Hash, leaves: seq<Text>, levels: seq<seq<Text>>)
    requires IsLadder(h, leaves, levels)
    ensures leaves != [] && levels[|levels| - 1][0] == Root(h, leaves)
    decreases |levels|
  {
    if |levels| > 1 {
      var next, more := levels[1], levels[1..];
      assert IsPass(h, levels[0], levels[1]);
      forall i | 0 < i < |more| ensures IsPass(h, more[i - 1], more[i]) { assert IsPass(h, levels[i], levels[i + 1]); }
      LadderEndsInRoot(h, next, more);
      PassIsPairUp(h, leaves, next);
      TreeOfPairUp(h, leaves);
    }
  }

  lemma {:induction false} PowersDouble(a: nat, b: nat)
    requires PowerOfTwo(a) && PowerOfTwo(b) && a < b
    ensures 2 * a <= b
  {
    if a > 1 { PowersDouble(a / 2, b / 2); }
  }

  /** The root of two leaves or more is the hash of the roots on either side of the power of two below them, left before right. */
  lemma {:induction false} RootSplits(h: Hash, leaves: seq<Text>, k: nat)
    requires PowerOfTwo(k) && k < |leaves| <= 2 * k
    ensures Root(h, leaves) == h(Root(h, leaves[..k]) + Root(h, leaves[k..]))
  {
    var s := SplitPoint(|leaves|);
    SplitPointIsPowerOfTwo(|leaves|);
    if s < k { PowersDouble(s, k); }
    if k < s { PowersDouble(k, s); }
  }

  /** No leaves have the hash of the empty text for their root, and one leaf is its own. */
  lemma {:induction false} SmallRoots(h: Hash, leaf: Text)
    ensures Root(h, []) == h([]) && Root(h, [leaf]) == leaf
  {}

  // ------------------------------------------------------------ what a root binds

  /** The texts hashed at the inner nodes of the tree. */
  function InnerTexts(h: Hash, leaves: seq<Text>): set<Text>
    decreases |leaves|
  {
    if |leaves| <= 1 then {}
    else
      var k := SplitPoint(|leaves|);
      {Tree(h, leaves[..k]) + Tree(h, leaves[k..])} + InnerTexts(h, leaves[..k]) + InnerTexts(h, leaves[k..])
  }

  lemma {:induction false} TreeIsDigest(h: Hash, leaves: seq<Text>)
    requires leaves != [] && YieldsDigests(h) && forall i | 0 <= i < |leaves| :: IsDigest(leaves[i])
    ensures IsDigest(Tree(h, leaves))
  {}

  lemma {:induction false} CollisionFreeSubset(h: Hash, small: set<Text>, large: set<Text>)
    requires small <= large && CollisionFree(h, large)
    ensures CollisionFree(h, small)
  {}

  /** Lists of one length with one root are one list. */
  lemma {:induction false} RootBindsLeaves(h: Hash, a: seq<Text>, b: seq<Text>)
    requires a != [] && |a| == |b| && YieldsDigests(h)
    requires forall i | 0 <= i < |a| :: IsDigest(a[i]) && IsDigest(b[i])
    requires CollisionFree(h, InnerTexts(h, a) + InnerTexts(h, b))
    requires Root(h, a) == Root(h, b)
    ensures a == b
    decreases |a|
  {
    if |a| > 1 {
      var k := SplitPoint(|a|);
      SplitRoots(h, a, b);
      RootBindsLeaves(h, a[..k], b[..k]);
      RootBindsLeaves(h, a[k..], b[k..]);
      assert a == a[..k] + a[k..] && b == b[..k] + b[k..];
    } else {
      assert a == [a[0]] && b == [b[0]];
    }
  }

  /** Equal roots of two inner nodes have equal children, on smaller sets of texts. */
  lemma {:induction false} SplitRoots(h: Hash, a: seq<Text>, b: seq<Text>)
    requires |a| > 1 && |b| > 1 && YieldsDigests(h)
    requires forall i | 0 <= i < |a| :: IsDigest(a[i])
    requires forall i | 0 <= i < |b| :: IsDigest(b[i])
    requires CollisionFree(h, InnerTexts(h, a) + InnerTexts(h, b))
    requires Tree(h, a) == Tree(h, b)
    ensures var j, k := SplitPoint(|a|), SplitPoint(|b|);
            && Tree(h, a[..j]) == Tree(h, b[..k]) && Tree(h, a[j..]) == Tree(h, b[k..])
            && CollisionFree(h, InnerTexts(h, a[..j]) + InnerTexts(h, b[..k]))
            && CollisionFree(h, InnerTexts(h, a[j..]) + InnerTexts(h, b[k..]))
  {
    var j, k := SplitPoint(|a|), SplitPoint(|b|);
    var all := InnerTexts(h, a) + InnerTexts(h, b);
    TreeIsDigest(h, a[..j]);
    TreeIsDigest(h, b[..k]);
    InnerTextsSplit(h, a);
    InnerTextsSplit(h, b);
    SameHalves(Tree(h, a[..j]), Tree(h, a[j..]), Tree(h, b[..k]), Tree(h, b[k..]));
    CollisionFreeSubset(h, InnerTexts(h, a[..j]) + InnerTexts(h, b[..k]), all);
    CollisionFreeSubset(h, InnerTexts(h, a[j..]) + InnerTexts(h, b[k..]), all);
  }

  lemma {:induction false} InnerTextsSplit(h: Hash, leaves: seq<Text>)
    requires |leaves| > 1
    ensures var k := SplitPoint(|leaves|);
            && Tree(h, leaves[..k]) + Tree(h, leaves[k..]) in InnerTexts(h, leaves)
            && Tree(h, leaves) == h(Tree(h, leaves[..k]) + Tree(h, leaves[k..]))
            && InnerTexts(h, leaves[..k]) <= InnerTexts(h, leaves)
            && InnerTexts(h, leaves[k..]) <= InnerTexts(h, leaves)
  {}

  lemma {:induction false} SameHalves(a: Text, b: Text, c: Text, d: Text)
    requires |a| == |c|
    ensures a + b == c + d <==> a == c && b == d
  {
    if a + b == c + d {
      assert a == (a + b)[..|a|] && c == (c + d)[..|a|];
      assert b == (a + b)[|a|..] && d == (c + d)[|a|..];
    }
  }

  /** The same root at two lengths: a leaf may equal an inner node. */
  lemma {:induction false} RootAloneIsAmbiguous(h: Hash, x: Text, y: Text)
    ensures Root(h, [x, y]) == Root(h, [h(x + y)])
  {
    TreeOfTwo(h, x, y);
  }

  function Hashes(h: Hash, texts: seq<Text>): (r: seq<Text>)
    ensures |r| == |texts| && forall i {:trigger r[i]} | 0 <= i < |texts| :: r[i] == h(texts[i])
  {
    if texts == [] then [] else [h(texts[0])] + Hashes(h, texts[1..])
  }

  lemma {:induction false} HashesSlice(h: Hash, texts: seq<Text>, k: nat)
    requires k <= |texts|
    ensures Hashes(h, texts)[..k] == Hashes(h, texts[..k])
    ensures Hashes(h, texts)[k..] == Hashes(h, texts[k..])
  {
    var all, front, back := Hashes(h, texts), Hashes(h, texts[..k]), Hashes(h, texts[k..]);
    forall i | 0 <= i < k ensures all[i] == front[i] {}
    forall i | 0 <= i < |back| ensures all[k + i] == back[i] {}
  }

  /** Texts that cannot be the concatenation of two digests. */
  ghost predicate Marked(texts: seq<Text>) {
    forall i | 0 <= i < |texts| :: texts[i] != [] && !IsLowerHex(texts[i][0])
  }

  /** Everything hashed on the way from the leaf texts to their root. */
  function HashedTexts(h: Hash, texts: seq<Text>): set<Text> {
    (set t | t in texts) + InnerTexts(h, Hashes(h, texts))
  }

  /**
   * When every leaf is the hash of a text that opens with something other than a
   * hexadecimal digit (canonical objects open with a brace), the root alone binds
   * the whole list, its length included: leaves and inner nodes cannot be confused.
   */
  lemma {:induction false} RootBindsMarkedTexts(h: Hash, a: seq<Text>, b: seq<Text>)
    requires a != [] && b != [] && YieldsDigests(h) && Marked(a) && Marked(b)
    requires CollisionFree(h, HashedTexts(h, a) + HashedTexts(h, b))
    requires Root(h, Hashes(h, a)) == Root(h, Hashes(h, b))
    ensures a == b
    decreases |a| + |b|
  {
    if |a| == 1 {
      OneLeaf(h, a, b);
    } else if |b| == 1 {
      OneLeaf(h, b, a);
    } else {
      var j, k := SplitPoint(|a|), SplitPoint(|b|);
      HalvesAgree(h, a, b);
      MarkedSlices(a, j);
      MarkedSlices(b, k);
      RootBindsMarkedTexts(h, a[..j], b[..k]);
      RootBindsMarkedTexts(h, a[j..], b[k..]);
      Rejoin(a, j, b, k);
    }
  }

  lemma {:induction false} MarkedSlices(texts: seq<Text>, k: nat)
    requires Marked(texts) && k <= |texts|
    ensures Marked(texts[..k]) && Marked(texts[k..])
  {}

  lemma {:induction false} Rejoin<E>(a: seq<E>, j: nat, b: seq<E>, k: nat)
    requires j <= |a| && k <= |b| && a[..j] == b[..k] && a[j..] == b[k..]
    ensures a == b
  {
    assert a == a[..j] + a[j..] && b == b[..k] + b[k..];
  }

  lemma {:induction false} OneLeaf(h: Hash, a: seq<Text>, b: seq<Text>)
    requires |a| == 1 && b != [] && YieldsDigests(h) && Marked(a)
    requires CollisionFree(h, HashedTexts(h, a) + HashedTexts(h, b))
    requires Root(h, Hashes(h, a)) == Root(h, Hashes(h, b))
    ensures a == b
  {
    var all := HashedTexts(h, a) + HashedTexts(h, b);
    assert a[0] in all;
    if |b| == 1 {
      assert b[0] in all;
      assert a == [a[0]] && b == [b[0]];
    } else {
      LeafIsNotInner(h, a[0], Hashes(h, b), all);
    }
  }

  lemma {:induction false} HalvesAgree(h: Hash, a: seq<Text>, b: seq<Text>)
    requires |a| > 1 && |b| > 1 && YieldsDigests(h)
    requires CollisionFree(h, HashedTexts(h, a) + HashedTexts(h, b))
    requires Root(h, Hashes(h, a)) == Root(h, Hashes(h, b))
    ensures var j, k := SplitPoint(|a|), SplitPoint(|b|);
            && Root(h, Hashes(h, a[..j])) == Root(h, Hashes(h, b[..k]))
            && Root(h, Hashes(h, a[j..])) == Root(h, Hashes(h, b[k..]))
            && CollisionFree(h, HashedTexts(h, a[..j]) + HashedTexts(h, b[..k]))
            && CollisionFree(h, HashedTexts(h, a[j..]) + HashedTexts(h, b[k..]))
  {
    var j, k := SplitPoint(|a|), SplitPoint(|b|);
    CollisionFreeSubset(h, InnerTexts(h, Hashes(h, a)) + InnerTexts(h, Hashes(h, b)), HashedTexts(h, a) + HashedTexts(h, b));
    SplitRoots(h, Hashes(h, a), Hashes(h, b));
    HalvesHashLess(h, a, j);
    HalvesHashLess(h, b, k);
    FewerTexts(h, HashedTexts(h, a[..j]), HashedTexts(h, b[..k]), HashedTexts(h, a), HashedTexts(h, b));
    FewerTexts(h, HashedTexts(h, a[j..]), HashedTexts(h, b[k..]), HashedTexts(h, a), HashedTexts(h, b));
  }

  lemma {:induction false} FewerTexts(h: Hash, a: set<Text>, b: set<Text>, c: set<Text>, d: set<Text>)
    requires a <= c && b <= d && CollisionFree(h, c + d)
    ensures CollisionFree(h, a + b)
  {
    CollisionFreeSubset(h, a + b, c + d);
  }

  lemma {:induction false} HalvesHashLess(h: Hash, texts: seq<Text>, k: nat)
    requires |texts| > 1 && k == SplitPoint(|texts|)
    ensures Hashes(h, texts)[..k] == Hashes(h, texts[..k]) && Hashes(h, texts)[k..] == Hashes(h, texts[k..])
    ensures HashedTexts(h, texts[..k]) <= HashedTexts(h, texts)
    ensures HashedTexts(h, texts[k..]) <= HashedTexts(h, texts)
  {
    HashesSlice(h, texts, k);
    InnerTextsSplit(h, Hashes(h, texts));
  }

  lemma {:induction false} LeafIsNotInner(h: Hash, text: Text, leaves: seq<Text>, all: set<Text>)
    requires |leaves| > 1 && YieldsDigests(h) && forall i | 0 <= i < |leaves| :: IsDigest(leaves[i])
    requires text != [] && !IsLowerHex(text[0]) && text in all
    requires InnerTexts(h, leaves) <= all && CollisionFree(h, all)
    ensures h(text) != Tree(h, leaves)
  {
    var k := SplitPoint(|leaves|);
    TreeIsDigest(h, leaves[..k]);
    var inner := Tree(h, leaves[..k]) + Tree(h, leaves[k..]);
    assert inner in InnerTexts(h, leaves);
    assert IsLowerHex(inner[0]);
  }
}
