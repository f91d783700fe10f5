// The implicit binary tree of lib/iser.c as a mathematical object: node p has children 2p and 2p+1,
// the root is 1 and has level k+1, leaves have level 1 and are the nodes 2^k .. 2^(k+1)-1.
// Node p stands for the block of 2^(level-1) units that starts at unit p * 2^(level-1) - 2^k.
// The source fixes k = 10; everything here holds for every k.
module BuddyTree {
  import opened Powers

  predicate IsNode(k: nat, p: nat) {
    1 <= p < 2 * Pow2(k)
  }

  function Level(k: nat, p: nat): int
    requires p >= 1
  {
    if p == 1 then k + 1 else Level(k, p / 2) - 1
  }

  function Size(k: nat, p: nat): nat
    requires IsNode(k, p)
  {
    LevelInRange(k, p);
    Pow2(Level(k, p) - 1)
  }

  // First unit of the block of p: a left child starts where its parent does, a right child halfway in.
  // StartFormula gives the closed form that the source computes with a shift.
  function Start(k: nat, p: nat): nat
    requires IsNode(k, p)
  {
    if p == 1 then 0
    else Start(k, p / 2) + if p % 2 == 0 then 0 else Size(k, p)
  }

  // Node a is p itself or an ancestor of p.
  predicate Covers(a: nat, p: nat) {
    a == p || (p > a && Covers(a, p / 2))
  }

  // The value a node shows, given its two children.
  function Combine(left: int, right: int, level: int): int {
    if left == level - 1 then
      if right == level - 1 then level else level - 1
    else
      if left > right then left else right
  }

  // The tree that a set of live nodes determines.
  ghost function Value(k: nat, live: set<nat>, p: nat): int
    requires IsNode(k, p)
    decreases 2 * Pow2(k) - p
  {
    if p in live then 0
    else if p >= Pow2(k) then 1
    else Combine(Value(k, live, 2 * p), Value(k, live, 2 * p + 1), Level(k, p))
  }

  // No two live nodes lie on one path to the root.
  ghost predicate Antichain(live: set<nat>) {
    forall a, b :: a in live && b in live && Covers(a, b) ==> a == b
  }

  ghost predicate LiveSet(k: nat, live: set<nat>) {
    (forall p :: p in live ==> IsNode(k, p)) && Antichain(live)
  }

  predicate Overlap(k: nat, p: nat, q: nat)
    requires IsNode(k, p) && IsNode(k, q)
  {
    Start(k, p) < Start(k, q) + Size(k, q) && Start(k, q) < Start(k, p) + Size(k, p)
  }

  // The block of p shares no unit with any live block.
  ghost predicate Available(k: nat, live: set<nat>, p: nat)
    requires IsNode(k, p) && LiveSet(k, live)
  {
    forall q :: q in live ==> !Overlap(k, p, q)
  }

  ghost predicate AvailableBelow(k: nat, live: set<nat>, p: nat, w: int)
    requires LiveSet(k, live)
  {
    exists q: nat :: IsNode(k, q) && Covers(p, q) && Level(k, q) == w && Available(k, live, q)
  }

  // ----- levels and blocks

  lemma {:induction false} LevelOfDepth(k: nat, d: nat, p: nat)
    requires Pow2(d) <= p < 2 * Pow2(d)
    ensures Level(k, p) == k + 1 - d
  {
    if d > 0 {
      LevelOfDepth(k, d - 1, p / 2);
    }
  }

  lemma {:induction false} DepthExists(k: nat, p: nat) returns (d: nat)
    requires IsNode(k, p)
    ensures d <= k && Pow2(d) <= p < 2 * Pow2(d)
  {
    if p >= Pow2(k) {
      d := k;
    } else {
      d := DepthExists(k - 1, p);
    }
  }

  lemma LevelInRange(k: nat, p: nat)
    requires IsNode(k, p)
    ensures 1 <= Level(k, p) <= k + 1
    ensures p < Pow2(k) <==> Level(k, p) >= 2
  {
    var d := DepthExists(k, p);
    LevelOfDepth(k, d, p);
    if d < k {
      Pow2Monotone(d, k - 1);
    }
  }

  lemma ChildrenSplit(k: nat, p: nat)
    requires IsNode(k, p) && p < Pow2(k)
    ensures Level(k, 2 * p) == Level(k, 2 * p + 1) == Level(k, p) - 1
    ensures Size(k, 2 * p) == Size(k, 2 * p + 1) && Size(k, p) == 2 * Size(k, 2 * p)
    ensures Start(k, 2 * p) == Start(k, p)
    ensures Start(k, 2 * p + 1) == Start(k, p) + Size(k, 2 * p)
  {
    LevelInRange(k, p);
    assert (2 * p) / 2 == p && (2 * p + 1) / 2 == p;
  }

  lemma {:induction false} BlockInRange(k: nat, p: nat)
    requires IsNode(k, p)
    ensures Start(k, p) + Size(k, p) <= Pow2(k)
    decreases p
  {
    if p > 1 {
      BlockInRange(k, p / 2);
      ChildrenSplit(k, p / 2);
    }
  }

  lemma {:induction false} StartFormula(k: nat, p: nat)
    requires IsNode(k, p)
    ensures p * Size(k, p) == Start(k, p) + Pow2(k)
    decreases p
  {
    if p > 1 {
      StartFormula(k, p / 2);
      ChildrenSplit(k, p / 2);
      ProductOfHalf(p, Size(k, p));
    }
  }

  lemma BlockAligned(k: nat, p: nat) returns (j: nat)
    requires IsNode(k, p)
    ensures Start(k, p) == j * Size(k, p)
  {
    LevelInRange(k, p);
    var l := Level(k, p) - 1;
    var d := DepthExists(k, p);
    LevelOfDepth(k, d, p);
    Pow2Sum(d, l);
    StartFormula(k, p);
    Difference(p, Pow2(d), Size(k, p));
    j := p - Pow2(d);
  }

  lemma Difference(a: int, b: int, c: int)
    ensures (a - b) * c == a * c - b * c
  {
  }

  // Every aligned range of 2^(level-1) units is the block of exactly one node.
  lemma AlignedRangeIsNode(k: nat, j: nat, level: nat) returns (p: nat)
    requires 1 <= level <= k + 1
    requires (j + 1) * Pow2(level - 1) <= Pow2(k)
    ensures IsNode(k, p) && Level(k, p) == level && Start(k, p) == j * Pow2(level - 1)
  {
    var l := level - 1;
    var s, t := Pow2(l), Pow2(k - l);
    Pow2Sum(k - l, l);
    if j + 1 > t {
      MultiplyStrict(t, j + 1, s);
    }
    p := j + t;
    LevelOfDepth(k, k - l, p);
    Pow2Monotone(k - l, k);
    StartFormula(k, p);
    ProductOfSum(j, t, s);
  }

  lemma {:induction false} Pow2Sum(m: nat, n: nat)
    ensures Pow2(m) * Pow2(n) == Pow2(m + n)
  {
    if m > 0 {
      Pow2Sum(m - 1, n);
      assert Pow2(m) * Pow2(n) == 2 * (Pow2(m - 1) * Pow2(n));
    }
  }

  lemma ProductOfHalf(p: nat, s: nat)
    ensures p * s == (p / 2) * (2 * s) + if p % 2 == 0 then 0 else s
  {
    var h := p / 2;
    assert p == 2 * h || p == 2 * h + 1;
  }

  lemma ProductOfSum(x: nat, y: nat, s: nat)
    ensures (x + y) * s == x * s + y * s
  {
  }

  lemma MultiplyStrict(x: nat, y: nat, s: nat)
    requires x < y && s > 0
    ensures x * s < y * s
  {
    assert y * s == x * s + (y - x) * s;
  }

  // ----- ancestors and intervals

  lemma {:induction false} CoversParent(a: nat, p: nat)
    requires a >= 2 && Covers(a, p)
    ensures Covers(a / 2, p)
    decreases p
  {
    if a != p {
      CoversParent(a, p / 2);
    }
  }

  lemma {:induction false} CoversContains(k: nat, a: nat, p: nat)
    requires IsNode(k, a) && IsNode(k, p) && Covers(a, p)
    ensures Start(k, a) <= Start(k, p) && Start(k, p) + Size(k, p) <= Start(k, a) + Size(k, a)
    ensures a != p ==> Level(k, p) < Level(k, a)
    decreases p
  {
    if a != p {
      CoversContains(k, a, p / 2);
      ChildrenSplit(k, p / 2);
    }
  }

  // Below p there is a child of p on the way to every proper descendant.
  lemma {:induction false} CoversViaChild(p: nat, q: nat)
    requires p >= 1 && Covers(p, q) && p != q
    ensures Covers(2 * p, q) || Covers(2 * p + 1, q)
    decreases q
  {
    if q / 2 != p {
      CoversViaChild(p, q / 2);
    }
  }

  lemma {:induction false} Incomparable(k: nat, p: nat, q: nat)
    requires IsNode(k, p) && IsNode(k, q) && !Covers(p, q) && !Covers(q, p)
    ensures !Overlap(k, p, q)
    decreases p + q, q
  {
    if p < q {
      Incomparable(k, q, p);
    } else {
      var r := p / 2;
      ChildrenSplit(k, r);
      if Covers(r, q) {
        CoversViaChild(r, q);
        CoversContains(k, if Covers(2 * r, q) then 2 * r else 2 * r + 1, q);
      } else {
        Incomparable(k, r, q);
      }
    }
  }

  lemma OverlapIffComparable(k: nat, p: nat, q: nat)
    requires IsNode(k, p) && IsNode(k, q)
    ensures Overlap(k, p, q) <==> Covers(p, q) || Covers(q, p)
  {
    if Covers(p, q) {
      CoversContains(k, p, q);
    } else if Covers(q, p) {
      CoversContains(k, q, p);
    } else {
      Incomparable(k, p, q);
    }
  }

  lemma {:induction false} CoversLeftmostLeaf(p: nat, j: nat)
    requires p >= 1
    ensures Covers(p, p * Pow2(j))
  {
    if j > 0 {
      CoversLeftmostLeaf(p, j - 1);
      assert p * Pow2(j) == 2 * (p * Pow2(j - 1));
      assert p * Pow2(j - 1) >= p by {
        MultiplyAtLeast(p, Pow2(j - 1));
      }
    }
  }

  lemma MultiplyAtLeast(x: nat, y: nat)
    requires y >= 1
    ensures x * y >= x
  {
    assert x * y == x + x * (y - 1);
  }

  // ----- what the values of the tree mean

  lemma {:induction false} ValueInRange(k: nat, live: set<nat>, p: nat)
    requires IsNode(k, p)
    ensures 0 <= Value(k, live, p) <= Level(k, p)
    decreases 2 * Pow2(k) - p
  {
    LevelInRange(k, p);
    if p !in live && p < Pow2(k) {
      ChildrenSplit(k, p);
      ValueInRange(k, live, 2 * p);
      ValueInRange(k, live, 2 * p + 1);
    }
  }

  // A node shows its own level exactly when nothing at or below it is live.
  lemma {:induction false} FullIffNothingLive(k: nat, live: set<nat>, p: nat)
    requires IsNode(k, p)
    ensures Value(k, live, p) == Level(k, p) <==> forall q :: q in live && IsNode(k, q) ==> !Covers(p, q)
    decreases 2 * Pow2(k) - p
  {
    LevelInRange(k, p);
    if p in live {
    } else if p >= Pow2(k) {
      forall q | IsNode(k, q) && Covers(p, q) ensures q == p {
        if q != p {
          CoversContains(k, p, q);
          LevelInRange(k, q);
        }
      }
    } else {
      ChildrenSplit(k, p);
      ValueInRange(k, live, 2 * p);
      ValueInRange(k, live, 2 * p + 1);
      FullIffNothingLive(k, live, 2 * p);
      FullIffNothingLive(k, live, 2 * p + 1);
      forall q | q in live && IsNode(k, q)
        ensures Covers(p, q) <==> Covers(2 * p, q) || Covers(2 * p + 1, q)
      {
        if Covers(p, q) {
          CoversViaChild(p, q);
        } else if Covers(2 * p, q) {
          CoversParent(2 * p, q);
        } else if Covers(2 * p + 1, q) {
          CoversParent(2 * p + 1, q);
        }
      }
    }
  }

  // Changing whether n is live leaves every node that is not above n alone.
  lemma {:induction false} ValueFrame(k: nat, was: set<nat>, now: set<nat>, n: nat, p: nat)
    requires was - {n} == now - {n}
    requires IsNode(k, p) && !Covers(p, n)
    ensures Value(k, was, p) == Value(k, now, p)
    decreases 2 * Pow2(k) - p
  {
    assert p in was <==> p in was - {n};
    assert p in now <==> p in now - {n};
    if p < Pow2(k) {
      if Covers(2 * p, n) {
        CoversParent(2 * p, n);
      }
      if Covers(2 * p + 1, n) {
        CoversParent(2 * p + 1, n);
      }
      ValueFrame(k, was, now, n, 2 * p);
      ValueFrame(k, was, now, n, 2 * p + 1);
    }
  }

  // Once one node above n agrees, all nodes above it agree: this is why propagation may stop early.
  lemma {:induction false} AgreementPropagates(k: nat, was: set<nat>, now: set<nat>, n: nat, p: nat, q: nat)
    requires was - {n} == now - {n} && IsNode(k, n)
    requires IsNode(k, p) && IsNode(k, q) && Covers(q, p) && Covers(p, n)
    requires forall a :: Covers(a, n) && a != n ==> a !in was && a !in now
    requires Value(k, was, p) == Value(k, now, p)
    ensures Value(k, was, q) == Value(k, now, q)
    decreases p
  {
    if q != p {
      var h := p / 2;
      CoversParent(p, n);
      CoversContains(k, p, n);
      LevelInRange(k, h);
      var sibling := if p % 2 == 0 then p + 1 else p - 1;
      SiblingApart(k, p, sibling, n);
      ValueFrame(k, was, now, n, sibling);
      ParentNotBelow(p, n);
      assert Value(k, was, h) == Value(k, now, h);
      AgreementPropagates(k, was, now, n, h, q);
    }
  }

  lemma {:induction false} CoversSmaller(a: nat, p: nat)
    requires Covers(a, p)
    ensures a <= p
  {
  }

  lemma ParentNotBelow(p: nat, n: nat)
    requires p >= 2 && Covers(p, n)
    ensures p / 2 != n
  {
    CoversSmaller(p, n);
  }

  lemma SiblingApart(k: nat, p: nat, s: nat, n: nat)
    requires p >= 2 && s == (if p % 2 == 0 then p + 1 else p - 1)
    requires IsNode(k, p) && IsNode(k, n) && Covers(p, n)
    ensures IsNode(k, s) && !Covers(s, n)
  {
    if Covers(s, n) {
      ChildrenSplit(k, p / 2);
      CoversContains(k, p, n);
      CoversContains(k, s, n);
    }
  }

  // The largest free block below p: a level w fits under p exactly when some available node of level w lies there.
  lemma {:induction false} FitsIffAvailable(k: nat, live: set<nat>, p: nat, w: int)
    requires LiveSet(k, live) && IsNode(k, p) && 1 <= w <= Level(k, p)
    requires forall a :: a in live && Covers(a, p) ==> a == p
    ensures Value(k, live, p) >= w <==> AvailableBelow(k, live, p, w)
    decreases 2 * Pow2(k) - p
  {
    LevelInRange(k, p);
    if p in live {
      forall q | IsNode(k, q) && Covers(p, q) ensures !Available(k, live, q) {
        OverlapIffComparable(k, q, p);
      }
    } else if w == Level(k, p) {
      ValueInRange(k, live, p);
      FullIffNothingLive(k, live, p);
      WholeNodeAvailable(k, live, p);
    } else {
      ChildrenSplit(k, p);
      ValueInRange(k, live, 2 * p);
      ValueInRange(k, live, 2 * p + 1);
      NoLiveAboveChild(k, live, p, 2 * p);
      NoLiveAboveChild(k, live, p, 2 * p + 1);
      FitsIffAvailable(k, live, 2 * p, w);
      FitsIffAvailable(k, live, 2 * p + 1, w);
      AvailableInChildren(k, live, p, w);
    }
  }

  lemma WholeNodeAvailable(k: nat, live: set<nat>, p: nat)
    requires LiveSet(k, live) && IsNode(k, p)
    requires forall a :: a in live && Covers(a, p) ==> a == p
    ensures AvailableBelow(k, live, p, Level(k, p)) <==>
            forall q :: q in live && IsNode(k, q) ==> !Covers(p, q)
  {
    forall q | IsNode(k, q) && Covers(p, q) && Level(k, q) == Level(k, p) ensures q == p {
      CoversContains(k, p, q);
    }
    forall q | q in live ensures Overlap(k, p, q) <==> Covers(p, q) {
      OverlapIffComparable(k, p, q);
    }
    assert Covers(p, p);
  }

  lemma AvailableInChildren(k: nat, live: set<nat>, p: nat, w: int)
    requires LiveSet(k, live) && IsNode(k, p) && p < Pow2(k) && w < Level(k, p)
    ensures AvailableBelow(k, live, p, w) <==>
            AvailableBelow(k, live, 2 * p, w) || AvailableBelow(k, live, 2 * p + 1, w)
  {
    forall q | IsNode(k, q) && Level(k, q) == w
      ensures Covers(p, q) <==> Covers(2 * p, q) || Covers(2 * p + 1, q)
    {
      if Covers(p, q) {
        CoversViaChild(p, q);
      } else if Covers(2 * p, q) {
        CoversParent(2 * p, q);
      } else if Covers(2 * p + 1, q) {
        CoversParent(2 * p + 1, q);
      }
    }
  }

  lemma NoLiveAboveChild(k: nat, live: set<nat>, p: nat, c: nat)
    requires IsNode(k, p) && p < Pow2(k) && p !in live && (c == 2 * p || c == 2 * p + 1)
    requires forall a :: a in live && Covers(a, p) ==> a == p
    ensures forall a :: a in live && Covers(a, c) ==> a == c
  {
    assert c / 2 == p;
  }

  // ----- the live set and the tree

  // Distinct live blocks share no unit; each is aligned to its own size and lies in the chunk.
  lemma LiveBlocksApart(k: nat, live: set<nat>, p: nat, q: nat)
    requires LiveSet(k, live) && p in live && q in live && p != q
    ensures !Overlap(k, p, q) && Start(k, p) != Start(k, q)
    ensures exists j: nat :: Start(k, p) == j * Size(k, p)
    ensures Start(k, p) + Size(k, p) <= Pow2(k)
  {
    OverlapIffComparable(k, p, q);
    var j := BlockAligned(k, p);
    BlockInRange(k, p);
  }

  // Under a live node everything is full, which is what free relies on.
  lemma BelowLiveIsFull(k: nat, live: set<nat>, n: nat, p: nat)
    requires LiveSet(k, live) && n in live && IsNode(k, p) && Covers(n, p) && p != n
    ensures Value(k, live, p) == Level(k, p) >= 1
  {
    LevelInRange(k, p);
    FullIffNothingLive(k, live, p);
    forall q | q in live && IsNode(k, q) ensures !Covers(p, q) {
      if Covers(p, q) {
        CoversTransitive(n, p, q);
        CoversSmaller(n, p);
        CoversSmaller(p, q);
      }
    }
  }

  lemma {:induction false} CoversTransitive(a: nat, b: nat, c: nat)
    requires Covers(a, b) && Covers(b, c)
    ensures Covers(a, c)
    decreases c
  {
    if b != c {
      CoversTransitive(a, b, c / 2);
      CoversSmaller(a, b);
    }
  }

  // The tree with nothing live is the one a fresh chunk starts with: all buddies merged.
  lemma EmptyTreeIsInitial(k: nat, p: nat)
    requires IsNode(k, p)
    ensures Value(k, {}, p) == Level(k, p)
  {
    FullIffNothingLive(k, {}, p);
  }

  // Conversely, the tree determines the live set.
  lemma TreeDeterminesLiveSet(k: nat, s: set<nat>, t: set<nat>)
    requires LiveSet(k, s) && LiveSet(k, t)
    requires forall p: nat :: IsNode(k, p) ==> Value(k, s, p) == Value(k, t, p)
    ensures s == t
  {
    forall p | p in s ensures p in t {
      ZeroOverFullIsLive(k, s, t, p);
    }
    forall p | p in t ensures p in s {
      ZeroOverFullIsLive(k, t, s, p);
    }
  }

  lemma ZeroOverFullIsLive(k: nat, s: set<nat>, t: set<nat>, p: nat)
    requires LiveSet(k, s) && LiveSet(k, t)
    requires forall p: nat :: IsNode(k, p) ==> Value(k, s, p) == Value(k, t, p)
    requires p in s
    ensures p in t
  {
    if p < Pow2(k) {
      LevelInRange(k, p);
      ChildrenSplit(k, p);
      assert (2 * p) / 2 == p && (2 * p + 1) / 2 == p;
      BelowLiveIsFull(k, s, p, 2 * p);
      BelowLiveIsFull(k, s, p, 2 * p + 1);
      assert Value(k, s, p) == Value(k, t, p) == 0;
      assert Value(k, t, 2 * p) == Level(k, p) - 1;
      assert Value(k, t, 2 * p + 1) == Level(k, p) - 1;
    }
  }
}
