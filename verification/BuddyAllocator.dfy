// The buddy allocator of lib/iser.c: one chunk of 2^k units, its int8 tree, and the three routines over it.
module BuddyAllocator {
  import opened Common
  import opened Powers
  import opened BuddyTree

  type int8 = x: int | -128 <= x < 128

  const UNIT_SIZE := 4096
  const UNITS_SHIFT := 10

  // Position of the highest set bit, counted from 1.
  function Fls(x: nat): (r: nat)
    ensures x > 0 ==> r > 0 && Pow2(r - 1) <= x < Pow2(r)
    ensures x == 0 ==> r == 0
  {
    if x == 0 then 0 else 1 + Fls(x / 2)
  }

  // The level asked for when a buffer of dataSize bytes is wanted.
  function Want(dataSize: nat): int
    requires dataSize >= 1
  {
    Fls((dataSize * 2 - 1) / UNIT_SIZE / 2) + 1
  }

  // The size class is exact: the block is large enough and the next smaller one is not.
  lemma SizeClassExact(dataSize: nat)
    requires 1 <= dataSize <= UNIT_SIZE * Pow2(UNITS_SHIFT)
    ensures 1 <= Want(dataSize) <= UNITS_SHIFT + 1
    ensures UNIT_SIZE * Pow2(Want(dataSize) - 1) >= dataSize
    ensures Want(dataSize) > 1 ==> UNIT_SIZE * Pow2(Want(dataSize) - 2) < dataSize
  {
    var x := (dataSize - 1) / UNIT_SIZE;
    assert (dataSize * 2 - 1) / UNIT_SIZE / 2 == x;
    assert x < Pow2(UNITS_SHIFT);
    if Want(dataSize) > UNITS_SHIFT + 1 {
      Pow2Monotone(UNITS_SHIFT, Fls(x) - 1);
    }
  }

  // The available node of level want that starts lowest.
  ghost predicate FirstFit(k: nat, live: set<nat>, want: int, p: nat)
    requires LiveSet(k, live)
  {
    && IsNode(k, p) && Level(k, p) == want && Available(k, live, p)
    && forall q: nat :: IsNode(k, q) && Level(k, q) == want && Available(k, live, q) ==> Start(k, p) <= Start(k, q)
  }

  // What one allocation does: it is refused exactly when no block of that size is available,
  // and otherwise takes the first fit.
  ghost predicate AllocStep(k: nat, live: set<nat>, want: int, unit: Option<nat>, live': set<nat>)
    requires LiveSet(k, live)
  {
    match unit
    case None =>
      live' == live && forall q: nat :: IsNode(k, q) && Level(k, q) == want ==> !Available(k, live, q)
    case Some(u) =>
      exists p :: FirstFit(k, live, want, p) && u == Start(k, p) && live' == live + {p}
  }

  // What one release does, given only the first unit of a block.
  ghost predicate FreeStep(k: nat, live: set<nat>, unit: nat, live': set<nat>)
    requires LiveSet(k, live)
  {
    exists p :: p in live && Start(k, p) == unit && live' == live - {p}
  }

  class Chunk {
    const k: nat
    const tree: array<int8>
    ghost var live: set<nat>

    ghost predicate Valid()
      reads this, tree
    {
      && k <= 126
      && tree.Length == 2 * Pow2(k)
      && LiveSet(k, live)
      && forall p: nat :: IsNode(k, p) ==> tree[p] == Value(k, live, p)
    }

    constructor (k: nat)
      requires k <= 126
      ensures Valid() && live == {} && this.k == k && fresh(tree)
    {
      this.k := k;
      tree := new int8[2 * Pow2(k)](_ => 0);
      live := {};
      new;
      var i := 0;
      while i < k + 1
        invariant 0 <= i <= k + 1 && live == {}
        invariant i <= k ==> Pow2(i) <= Pow2(k)
        invariant forall p: nat :: IsNode(k, p) && (i <= k ==> p < Pow2(i)) ==> tree[p] == Level(k, p)
      {
        var first := Pow2(i);
        if i < k {
          Pow2Monotone(i + 1, k);
        }
        forall p: nat | first <= p < 2 * first ensures Level(k, p) == k - i + 1 {
          LevelOfDepth(k, i, p);
        }
        forall p | first <= p < 2 * first {
          tree[p] := k - i + 1;
        }
        i := i + 1;
      }
      forall p: nat | IsNode(k, p) ensures tree[p] == Value(k, live, p) {
        EmptyTreeIsInitial(k, p);
      }
    }

    // The walk towards the root after node n became live or was released. `was` is the live set before that.
    method Propagate(n: nat, level0: int, ghost was: set<nat>)
      requires k <= 126 && tree.Length == 2 * Pow2(k)
      requires OneChange(k, was, live, n) && level0 == Level(k, n)
      requires ShowsBelow(k, tree[..], was, live, n)
      modifies tree
      ensures Valid()
    {
      var pos: nat, level := n / 2, level0 + 1;
      ghost var child: nat := n;
      while pos != 0
        invariant IsNode(k, child) && Covers(child, n) && pos == child / 2 && level == Level(k, child) + 1
        invariant ShowsBelow(k, tree[..], was, live, child)
        decreases pos
      {
        PropagateStep(k, tree[..], was, live, n, child);
        var value: int;
        if tree[2 * pos] == level - 1 {
          if tree[2 * pos + 1] == level - 1 {
            value := level;
          } else {
            value := level - 1;
          }
        } else {
          value := if tree[2 * pos] > tree[2 * pos + 1] then tree[2 * pos] else tree[2 * pos + 1];
        }
        if value == tree[pos] {
          return;
        }
        ghost var before: seq<int> := tree[..];
        tree[pos] := value;
        assert tree[..] == before[pos := value];
        child := pos;
        pos, level := pos / 2, level + 1;
      }
      forall p: nat | IsNode(k, p) && Covers(p, child) ensures p == child {
        CoversSmaller(p, child);
      }
    }

    method Alloc(want: int) returns (unit: Option<nat>)
      requires Valid() && want >= 1
      modifies this`live, tree
      ensures Valid()
      ensures AllocStep(k, old(live), want, unit, live)
      ensures unit.None? ==> tree[..] == old(tree[..])
    {
      RootFits(k, live, want);
      if tree[1] < want {
        return None;
      }
      ghost var was := live;
      var pos := Descend(want);
      TakeNode(k, was, pos);
      StartFormula(k, pos);
      var start := pos * Pow2(want - 1) - Pow2(k);
      Occupy(pos, want);
      unit := Some(start);
    }

    // The descent from the root: to the left while the block fits there.
    method Descend(want: int) returns (pos: nat)
      requires Valid() && 1 <= want && tree.Length > 1 && tree[1] >= want
      ensures IsNode(k, pos) && Level(k, pos) == want && tree[pos] >= want
      ensures forall a :: a in live && Covers(a, pos) ==> a == pos
      ensures forall q: nat :: IsNode(k, q) && Level(k, q) == want && Available(k, live, q) ==>
                Start(k, pos) <= Start(k, q)
    {
      RootFits(k, live, want);
      var level := k + 1;
      pos := 1;
      while want < level
        invariant IsNode(k, pos) && level == Level(k, pos) && want <= level
        invariant tree[pos] >= want
        invariant forall a :: a in live && Covers(a, pos) ==> a == pos
        invariant forall q: nat :: IsNode(k, q) && Level(k, q) == want && Available(k, live, q) ==>
                    Start(k, pos) <= Start(k, q)
      {
        DescentStep(k, live, pos, want);
        pos := 2 * pos;
        pos := if tree[pos] >= want then pos else pos + 1;
        level := level - 1;
      }
    }

    // The node found shows 0 from now on, and the nodes above it are brought up to date.
    method Occupy(pos: nat, level: int)
      requires Valid() && IsNode(k, pos) && level == Level(k, pos) && LiveSet(k, live + {pos})
      requires OneChange(k, live, live + {pos}, pos)
      modifies this`live, tree
      ensures Valid() && live == old(live) + {pos}
    {
      ghost var was := live;
      tree[pos] := 0;
      live := live + {pos};
      forall p: nat | IsNode(k, p) && !Covers(p, pos) ensures Value(k, was, p) == Value(k, live, p) {
        ValueFrame(k, was, live, pos, p);
      }
      Propagate(pos, level, was);
    }

    method Free(unit: nat)
      requires Valid()
      requires exists p :: p in live && IsNode(k, p) && Start(k, p) == unit
      modifies this`live, tree
      ensures Valid()
      ensures FreeStep(k, old(live), unit, live)
    {
      ghost var n: nat :| n in live && IsNode(k, n) && Start(k, n) == unit;
      LeafOfBlock(k, n);
      var pos: nat, level := unit + Pow2(k), 1;
      while tree[pos] != 0
        invariant Valid() && live == old(live) && tree[..] == old(tree[..])
        invariant IsNode(k, pos) && Covers(n, pos) && level == Level(k, pos)
        decreases pos
      {
        assert pos != n;
        CoversSmaller(n, pos);
        pos, level := pos / 2, level + 1;
      }
      if pos != n {
        BelowLiveIsFull(k, live, n, pos);
      }
      ghost var was := live;
      ReleaseNode(k, was, n);
      live := live - {n};
      LevelInRange(k, n);
      tree[pos] := level;
      forall p: nat | IsNode(k, p) && !Covers(p, pos) ensures Value(k, was, p) == Value(k, live, p) {
        ValueFrame(k, was, live, pos, p);
      }
      Propagate(pos, level, was);
    }
  }

  // ----- steps of the three routines

  // Two live sets that differ at most in node n, and nothing above n is live in either.
  ghost predicate OneChange(k: nat, was: set<nat>, now: set<nat>, n: nat) {
    && LiveSet(k, was) && LiveSet(k, now) && was - {n} == now - {n} && IsNode(k, n)
    && forall a :: Covers(a, n) && a != n ==> a !in was && a !in now
  }

  // The nodes above c still show the old live set, all others the new one.
  ghost predicate ShowsBelow(k: nat, t: seq<int>, was: set<nat>, now: set<nat>, c: nat) {
    && |t| == 2 * Pow2(k)
    && (forall p: nat :: IsNode(k, p) && Covers(p, c) && p != c ==> t[p] == Value(k, was, p))
    && (forall p: nat :: IsNode(k, p) && (!Covers(p, c) || p == c) ==> t[p] == Value(k, now, p))
  }

  lemma PropagateStep(k: nat, t: seq<int>, was: set<nat>, now: set<nat>, n: nat, child: nat)
    requires OneChange(k, was, now, n) && IsNode(k, child) && Covers(child, n) && child >= 2
    requires ShowsBelow(k, t, was, now, child)
    ensures var pos := child / 2;
            && IsNode(k, pos) && 2 * pos + 1 < |t| && Covers(pos, n) && Level(k, pos) == Level(k, child) + 1 <= k + 1
            && var v := Combine(t[2 * pos], t[2 * pos + 1], Level(k, pos));
            && 0 <= v <= k + 1
            && ShowsBelow(k, t[pos := v], was, now, pos)
            && (v == t[pos] ==> forall p: nat :: IsNode(k, p) ==> t[p] == Value(k, now, p))
  {
    var pos := child / 2;
    PathStep(k, child, n);
    LevelInRange(k, pos);
    ValueInRange(k, now, pos);
    var v := Combine(t[2 * pos], t[2 * pos + 1], Level(k, pos));
    assert v == Value(k, now, pos);
    assert t[pos] == Value(k, was, pos);
    OneUp(k, t, was, now, child, pos, v);
    if v == t[pos] {
      StopEarly(k, t, was, now, n, child);
    }
  }

  lemma OneUp(k: nat, t: seq<int>, was: set<nat>, now: set<nat>, child: nat, pos: nat, v: int)
    requires ShowsBelow(k, t, was, now, child) && IsNode(k, pos) && pos < |t| && v == Value(k, now, pos)
    requires forall p :: Covers(p, child) && p != child <==> Covers(p, pos)
    ensures ShowsBelow(k, t[pos := v], was, now, pos)
  {
  }

  lemma StopEarly(k: nat, t: seq<int>, was: set<nat>, now: set<nat>, n: nat, child: nat)
    requires OneChange(k, was, now, n) && IsNode(k, child) && Covers(child, n) && child >= 2
    requires ShowsBelow(k, t, was, now, child)
    requires IsNode(k, child / 2) && Value(k, was, child / 2) == Value(k, now, child / 2)
    ensures forall p: nat :: IsNode(k, p) ==> t[p] == Value(k, now, p)
  {
    PathStep(k, child, n);
    forall p: nat | IsNode(k, p) ensures t[p] == Value(k, now, p) {
      if Covers(p, child) && p != child {
        AgreementPropagates(k, was, now, n, child / 2, p);
      }
    }
  }

  lemma PathStep(k: nat, child: nat, n: nat)
    requires IsNode(k, child) && IsNode(k, n) && Covers(child, n) && child >= 2
    ensures var pos := child / 2;
            && IsNode(k, pos) && 2 * pos + 1 < 2 * Pow2(k) && Covers(pos, n) && pos != n
            && Level(k, pos) == Level(k, child) + 1
            && (!Covers(2 * pos, child) || 2 * pos == child)
            && (!Covers(2 * pos + 1, child) || 2 * pos + 1 == child)
            && (forall p :: Covers(p, child) && p != child <==> Covers(p, pos))
  {
    CoversParent(child, n);
    ParentNotBelow(child, n);
    var pos := child / 2;
    var sibling := if child % 2 == 0 then child + 1 else child - 1;
    SiblingApart(k, child, sibling, child);
    forall p | Covers(p, pos) ensures Covers(p, child) && p != child {
      CoversSmaller(p, pos);
    }
  }

  lemma RootFits(k: nat, live: set<nat>, want: int)
    requires LiveSet(k, live) && want >= 1
    ensures Value(k, live, 1) >= want <==> exists q: nat :: IsNode(k, q) && Level(k, q) == want && Available(k, live, q)
    ensures Value(k, live, 1) <= k + 1
    ensures forall a :: a in live && Covers(a, 1) ==> a == 1
  {
    ValueInRange(k, live, 1);
    if want <= k + 1 {
      FitsIffAvailable(k, live, 1, want);
      forall q | IsNode(k, q) ensures Covers(1, q) {
        RootCovers(q);
      }
    } else {
      forall q | IsNode(k, q) ensures Level(k, q) != want {
        LevelInRange(k, q);
      }
    }
  }

  lemma {:induction false} RootCovers(q: nat)
    requires q >= 1
    ensures Covers(1, q)
  {
    if q > 1 {
      RootCovers(q / 2);
    }
  }

  // Going down from a node that fits, one child fits; the left one is taken unless it cannot hold the block.
  lemma DescentStep(k: nat, live: set<nat>, pos: nat, want: int)
    requires LiveSet(k, live) && IsNode(k, pos) && 1 <= want < Level(k, pos)
    requires Value(k, live, pos) >= want
    requires forall a :: a in live && Covers(a, pos) ==> a == pos
    requires forall q: nat :: IsNode(k, q) && Level(k, q) == want && Available(k, live, q) ==>
               Start(k, pos) <= Start(k, q)
    ensures pos < Pow2(k)
    ensures Level(k, 2 * pos) == Level(k, 2 * pos + 1) == Level(k, pos) - 1
    ensures var c := if Value(k, live, 2 * pos) >= want then 2 * pos else 2 * pos + 1;
            && Value(k, live, c) >= want
            && (forall a :: a in live && Covers(a, c) ==> a == c)
            && forall q: nat :: IsNode(k, q) && Level(k, q) == want && Available(k, live, q) ==>
                 Start(k, c) <= Start(k, q)
  {
    LevelInRange(k, pos);
    ChildrenSplit(k, pos);
    ValueInRange(k, live, 2 * pos);
    ValueInRange(k, live, 2 * pos + 1);
    NoLiveAboveChild(k, live, pos, 2 * pos);
    NoLiveAboveChild(k, live, pos, 2 * pos + 1);
    if Value(k, live, 2 * pos) < want {
      FitsIffAvailable(k, live, 2 * pos, want);
      forall q: nat | IsNode(k, q) && Level(k, q) == want && Available(k, live, q)
        ensures Start(k, 2 * pos + 1) <= Start(k, q)
      {
        OverlapIffComparable(k, 2 * pos, q);
        if Covers(q, 2 * pos) && q != 2 * pos {
          CoversContains(k, q, 2 * pos);
        }
      }
    }
  }

  lemma TakeNode(k: nat, live: set<nat>, p: nat)
    requires LiveSet(k, live) && IsNode(k, p) && Value(k, live, p) >= Level(k, p)
    requires forall a :: a in live && Covers(a, p) ==> a == p
    ensures LiveSet(k, live + {p}) && Available(k, live, p)
    ensures forall a :: Covers(a, p) && a != p ==> a !in live && a !in live + {p}
    ensures live - {p} == live + {p} - {p}
  {
    ValueInRange(k, live, p);
    LevelInRange(k, p);
    FullIffNothingLive(k, live, p);
    forall q | q in live ensures !Overlap(k, p, q) {
      OverlapIffComparable(k, p, q);
    }
    AvailableJoins(k, live, p);
  }

  lemma AvailableJoins(k: nat, live: set<nat>, p: nat)
    requires LiveSet(k, live) && IsNode(k, p) && Available(k, live, p)
    ensures LiveSet(k, live + {p}) && p !in live
  {
    forall q | q in live ensures !Covers(p, q) && !Covers(q, p) {
      OverlapIffComparable(k, p, q);
    }
  }

  lemma ReleaseNode(k: nat, live: set<nat>, n: nat)
    requires LiveSet(k, live) && n in live
    ensures LiveSet(k, live - {n})
    ensures Value(k, live - {n}, n) == Level(k, n)
    ensures forall a :: Covers(a, n) && a != n ==> a !in live && a !in live - {n}
  {
    FullIffNothingLive(k, live - {n}, n);
    forall q | q in live - {n} && IsNode(k, q) ensures !Covers(n, q) {
    }
  }

  // The leaf that free starts from lies at or below the block's node.
  lemma LeafOfBlock(k: nat, n: nat)
    requires IsNode(k, n)
    ensures var leaf := Start(k, n) + Pow2(k);
            IsNode(k, leaf) && Covers(n, leaf) && Level(k, leaf) == 1
  {
    LevelInRange(k, n);
    BlockInRange(k, n);
    StartFormula(k, n);
    CoversLeftmostLeaf(n, Level(k, n) - 1);
    LevelOfDepth(k, k, Start(k, n) + Pow2(k));
  }

  // ----- whole runs

  datatype Event = Alloc(want: int, unit: Option<nat>) | Free(start: nat)

  ghost predicate Step(k: nat, live: set<nat>, e: Event, live': set<nat>)
    requires LiveSet(k, live)
  {
    match e
    case Alloc(want, unit) => want >= 1 && AllocStep(k, live, want, unit, live')
    case Free(start) => FreeStep(k, live, start, live')
  }

  // states[i] is the live set before event i of a run that starts with a fresh chunk.
  ghost predicate Run(k: nat, states: seq<set<nat>>, events: seq<Event>) {
    && |states| == |events| + 1 && states[0] == {}
    && forall i :: 0 <= i < |events| ==> LiveSet(k, states[i]) ==> Step(k, states[i], events[i], states[i + 1])
  }

  lemma StepKeepsLiveSet(k: nat, live: set<nat>, e: Event, live': set<nat>)
    requires LiveSet(k, live) && Step(k, live, e, live')
    ensures LiveSet(k, live')
  {
    match e
    case Alloc(want, unit) =>
      if unit.Some? {
        var p: nat :| FirstFit(k, live, want, p) && unit.value == Start(k, p) && live' == live + {p};
        AvailableJoins(k, live, p);
      }
    case Free(start) =>
  }

  // In every run, at every moment, the live blocks lie in the chunk, are aligned to their size and share no unit.
  lemma {:induction false} RunKeepsBlocksApart(k: nat, states: seq<set<nat>>, events: seq<Event>, i: nat)
    requires Run(k, states, events) && i < |states|
    ensures LiveSet(k, states[i])
    ensures forall p :: p in states[i] ==>
              && Start(k, p) + Size(k, p) <= Pow2(k)
              && exists j: nat :: Start(k, p) == j * Size(k, p)
    ensures forall p, q :: p in states[i] && q in states[i] && p != q ==> !Overlap(k, p, q)
  {
    if i > 0 {
      RunKeepsBlocksApart(k, states, events, i - 1);
      StepKeepsLiveSet(k, states[i - 1], events[i - 1], states[i]);
    }
    forall p, q | p in states[i] && q in states[i] && p != q ensures !Overlap(k, p, q) {
      LiveBlocksApart(k, states[i], p, q);
    }
    forall p | p in states[i]
      ensures Start(k, p) + Size(k, p) <= Pow2(k) && exists j: nat :: Start(k, p) == j * Size(k, p)
    {
      var j := BlockAligned(k, p);
      BlockInRange(k, p);
    }
  }

  // Releasing the live blocks one after another, in whatever order, ends with the initial tree.
  lemma {:induction false} ReleasingAllRestoresTree(k: nat, states: seq<set<nat>>, units: seq<nat>)
    requires |states| == |units| + 1 && LiveSet(k, states[0]) && |units| == |states[0]|
    requires forall i :: 0 <= i < |units| ==> LiveSet(k, states[i]) && FreeStep(k, states[i], units[i], states[i + 1])
    ensures states[|units|] == {}
    ensures forall p: nat :: IsNode(k, p) ==> Value(k, states[|units|], p) == Level(k, p)
    decreases |units|
  {
    if |units| == 0 {
      forall p: nat | IsNode(k, p) ensures Value(k, {}, p) == Level(k, p) {
        EmptyTreeIsInitial(k, p);
      }
    } else {
      var p: nat :| p in states[0] && Start(k, p) == units[0] && states[1] == states[0] - {p};
      ReleasingAllRestoresTree(k, states[1..], units[1..]);
    }
  }

  // In the terms of the caller: a clear aligned run of 2^(want-1) units makes the allocation succeed, at or below it.
  lemma AllocFindsAlignedRange(k: nat, live: set<nat>, want: int, unit: Option<nat>, live': set<nat>, j: nat)
    requires LiveSet(k, live) && 1 <= want <= k + 1 && AllocStep(k, live, want, unit, live')
    requires (j + 1) * Pow2(want - 1) <= Pow2(k)
    requires forall q :: q in live ==>
               Start(k, q) + Size(k, q) <= j * Pow2(want - 1) || (j + 1) * Pow2(want - 1) <= Start(k, q)
    ensures unit.Some? && unit.value <= j * Pow2(want - 1)
  {
    var p := AlignedRangeIsNode(k, j, want);
    assert (j + 1) * Pow2(want - 1) == j * Pow2(want - 1) + Pow2(want - 1) by {
      ProductOfSum(j, 1, Pow2(want - 1));
    }
    assert Available(k, live, p);
  }
}
