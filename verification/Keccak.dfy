// The permutation of lib/sha3.c. The source works in place on 25 words and walks along one cycle of positions; FIPS 202
// defines every step as a simultaneous assignment of lanes A[x,y].
module Keccak {

  // The word operations the steps are made of. Nothing about the steps depends on what they do to a word.
  datatype Word<!L> = Word(xor: (L, L) -> L, rotl: (L, nat) -> L, andNot: (L, L) -> L)

  // The words of the source: 64 bits, with its rotation macro.
  function Xor64(a: bv64, b: bv64): bv64 {
    a ^ b
  }

  function Rotl64(a: bv64, n: nat): bv64 {
    if 0 < n < 64 then (a << n) | (a >> (64 - n)) else a
  }

  function AndNot64(a: bv64, b: bv64): bv64 {
    !a & b
  }

  const WORD64 := Word(Xor64, Rotl64, AndNot64)

  // ----- the steps of section 3.2 of FIPS 202; lane x,y is number x + 5y

  predicate IsState<L>(s: seq<L>) { |s| == 25 }

  function At(x: nat, y: nat): (k: nat)
    requires x < 5 && y < 5
    ensures k < 25
  {
    x + 5 * y
  }

  // Section 3.2.1
  function ColumnParity<L>(w: Word<L>, s: seq<L>, x: nat): L
    requires IsState(s) && x < 5
  {
    w.xor(w.xor(w.xor(w.xor(s[x], s[x + 5]), s[x + 10]), s[x + 15]), s[x + 20])
  }

  function ThetaEffect<L>(w: Word<L>, s: seq<L>, x: nat): L
    requires IsState(s) && x < 5
  {
    w.xor(ColumnParity(w, s, (x + 4) % 5), w.rotl(ColumnParity(w, s, (x + 1) % 5), 1))
  }

  function Theta<L>(w: Word<L>, s: seq<L>): (r: seq<L>)
    requires IsState(s)
    ensures IsState(r)
  {
    seq(25, k requires 0 <= k < 25 => w.xor(s[k], ThetaEffect(w, s, k % 5)))
  }

  // Section 3.2.2: the offsets are given along a walk that starts at lane 1,0 and goes from x,y to y,2x+3y.
  function Next(k: nat): (n: nat)
    requires k < 25
    ensures n < 25
  {
    At(k / 5, (2 * (k % 5) + 3 * (k / 5)) % 5)
  }

  function Walk(t: nat): (k: nat)
    ensures k < 25
  {
    if t == 0 then At(1, 0) else Next(Walk(t - 1))
  }

  function Triangular(t: nat): nat {
    (t + 1) * (t + 2) / 2
  }

  // Lane k is the t'th of the walk or a later one.
  function OffsetFrom(k: nat, t: nat): (n: nat)
    requires t < 24
    ensures n < 64
    decreases 24 - t
  {
    if k == Walk(t) then Triangular(t) % 64 else if t == 23 then 0 else OffsetFrom(k, t + 1)
  }

  function Offset(k: nat): (n: nat)
    ensures n < 64
  {
    if k == 0 then 0 else OffsetFrom(k, 0)
  }

  function Rho<L>(w: Word<L>, s: seq<L>): (r: seq<L>)
    requires IsState(s)
    ensures IsState(r)
  {
    seq(25, k requires 0 <= k < 25 => w.rotl(s[k], Offset(k)))
  }

  // Section 3.2.3
  function Source(k: nat): (n: nat)
    requires k < 25
    ensures n < 25
  {
    At((k % 5 + 3 * (k / 5)) % 5, k % 5)
  }

  function Pi<L>(s: seq<L>): (r: seq<L>)
    requires IsState(s)
    ensures IsState(r)
  {
    seq(25, k requires 0 <= k < 25 => s[Source(k)])
  }

  // Section 3.2.4
  function ChiOf<L>(w: Word<L>, s: seq<L>, x: nat, y: nat): L
    requires IsState(s) && x < 5 && y < 5
  {
    w.xor(s[At(x, y)], w.andNot(s[At((x + 1) % 5, y)], s[At((x + 2) % 5, y)]))
  }

  function Chi<L>(w: Word<L>, s: seq<L>): (r: seq<L>)
    requires IsState(s)
    ensures IsState(r)
  {
    seq(25, k requires 0 <= k < 25 => ChiOf(w, s, k % 5, k / 5))
  }

  // ----- the tables of the source

  function Rotc(a: nat): (n: nat)
    requires a < 24
    ensures n < 64
  {
    if a == 0 then 1 else if a == 1 then 3 else if a == 2 then 6 else if a == 3 then 10 else if a == 4 then 15 else
    if a == 5 then 21 else if a == 6 then 28 else if a == 7 then 36 else if a == 8 then 45 else
    if a == 9 then 55 else if a == 10 then 2 else if a == 11 then 14 else if a == 12 then 27 else
    if a == 13 then 41 else if a == 14 then 56 else if a == 15 then 8 else if a == 16 then 25 else
    if a == 17 then 43 else if a == 18 then 62 else if a == 19 then 18 else if a == 20 then 39 else
    if a == 21 then 61 else if a == 22 then 20 else 44
  }

  function Piln(a: nat): (k: nat)
    requires a < 24
    ensures 0 < k < 25
  {
    if a == 0 then 10 else if a == 1 then 7 else if a == 2 then 11 else if a == 3 then 17 else if a == 4 then 18 else
    if a == 5 then 3 else if a == 6 then 5 else if a == 7 then 16 else if a == 8 then 8 else if a == 9 then 21 else
    if a == 10 then 24 else if a == 11 then 4 else if a == 12 then 15 else if a == 13 then 23 else
    if a == 14 then 19 else if a == 15 then 13 else if a == 16 then 12 else if a == 17 then 2 else
    if a == 18 then 20 else if a == 19 then 14 else if a == 20 then 22 else if a == 21 then 9 else
    if a == 22 then 6 else 1
  }

  // The turn of the loop that writes a position; position 0 is not written.
  function TurnOf(k: nat): (a: nat)
    requires k < 25
    ensures a < 24 <==> k != 0
  {
    if k == 0 then 24 else if k == 1 then 23 else if k == 2 then 17 else if k == 3 then 5 else if k == 4 then 11 else
    if k == 5 then 6 else if k == 6 then 22 else if k == 7 then 1 else if k == 8 then 8 else if k == 9 then 21 else
    if k == 10 then 0 else if k == 11 then 2 else if k == 12 then 16 else if k == 13 then 15 else
    if k == 14 then 19 else if k == 15 then 12 else if k == 16 then 7 else if k == 17 then 3 else
    if k == 18 then 4 else if k == 19 then 14 else if k == 20 then 18 else if k == 21 then 9 else
    if k == 22 then 20 else if k == 23 then 13 else 10
  }

  // The position that turn a of the loop takes its word from.
  function From(a: nat): (k: nat)
    requires a <= 24
    ensures 0 < k < 25
  {
    if a == 0 then 1 else Piln(a - 1)
  }

  lemma NextIs(x: nat, y: nat, q: nat, z: nat)
    requires x < 5 && y < 5 && z < 5 && 2 * x + 3 * y == 5 * q + z
    ensures Next(x + 5 * y) == y + 5 * z
  {
    DivMod5(x + 5 * y, y, x);
    DivMod5(2 * x + 3 * y, q, z);
  }

  lemma PilnFollowsWalk(a: nat)
    requires a < 24
    ensures Piln(a) == Next(From(a))
  {
    if a == 0 {
      NextIs(1, 0, 0, 2);
    } else if a == 1 {
      NextIs(0, 2, 1, 1);
    } else if a == 2 {
      NextIs(2, 1, 1, 2);
    } else if a == 3 {
      NextIs(1, 2, 1, 3);
    } else if a == 4 {
      NextIs(2, 3, 2, 3);
    } else if a == 5 {
      NextIs(3, 3, 3, 0);
    } else if a == 6 {
      NextIs(3, 0, 1, 1);
    } else if a == 7 {
      NextIs(0, 1, 0, 3);
    } else if a == 8 {
      NextIs(1, 3, 2, 1);
    } else if a == 9 {
      NextIs(3, 1, 1, 4);
    } else if a == 10 {
      NextIs(1, 4, 2, 4);
    } else if a == 11 {
      NextIs(4, 4, 4, 0);
    } else if a == 12 {
      NextIs(4, 0, 1, 3);
    } else if a == 13 {
      NextIs(0, 3, 1, 4);
    } else if a == 14 {
      NextIs(3, 4, 3, 3);
    } else if a == 15 {
      NextIs(4, 3, 3, 2);
    } else if a == 16 {
      NextIs(3, 2, 2, 2);
    } else if a == 17 {
      NextIs(2, 2, 2, 0);
    } else if a == 18 {
      NextIs(2, 0, 0, 4);
    } else if a == 19 {
      NextIs(0, 4, 2, 2);
    } else if a == 20 {
      NextIs(4, 2, 2, 4);
    } else if a == 21 {
      NextIs(2, 4, 3, 1);
    } else if a == 22 {
      NextIs(4, 1, 2, 1);
    } else if a == 23 {
      NextIs(1, 1, 1, 0);
    }
  }

  lemma TurnOfPiln(a: nat)
    requires a < 24
    ensures TurnOf(Piln(a)) == a
  {
  }

  lemma RotcIsTriangularFirst(a: nat)
    requires 0 <= a < 12
    ensures Rotc(a) == Triangular(a) % 64
  {
    if a == 0 {
    } else if a == 1 {
    } else if a == 2 {
    } else if a == 3 {
    } else if a == 4 {
    } else if a == 5 {
    } else if a == 6 {
    } else if a == 7 {
    } else if a == 8 {
    } else if a == 9 {
    } else if a == 10 {
    } else if a == 11 {
    }
  }

  lemma RotcIsTriangularLast(a: nat)
    requires 12 <= a < 24
    ensures Rotc(a) == Triangular(a) % 64
  {
    if a == 12 {
    } else if a == 13 {
    } else if a == 14 {
    } else if a == 15 {
    } else if a == 16 {
    } else if a == 17 {
    } else if a == 18 {
    } else if a == 19 {
    } else if a == 20 {
    } else if a == 21 {
    } else if a == 22 {
    } else if a == 23 {
    }
  }

  lemma RotcIsTriangular(a: nat)
    requires a < 24
    ensures Rotc(a) == Triangular(a) % 64
  {
    if a < 12 {
      RotcIsTriangularFirst(a);
    } else {
      RotcIsTriangularLast(a);
    }
  }

  // The table is the walk.
  lemma {:induction false} TableIsWalk(a: nat)
    requires a <= 24
    ensures From(a) == Walk(a)
  {
    if a > 0 {
      TableIsWalk(a - 1);
      PilnFollowsWalk(a - 1);
    }
  }

  lemma PositionsRight(k: nat)
    requires 0 < k < 25
    ensures Piln(TurnOf(k)) == k
  {
  }

  // Section 3.2.3 undoes a step of the walk.
  lemma SourceOfNext(k: nat)
    requires k < 25
    ensures Source(Next(k)) == k
  {
    DivMod5(2 * (k % 5) + 3 * (k / 5), (2 * (k % 5) + 3 * (k / 5)) / 5, (2 * (k % 5) + 3 * (k / 5)) % 5);
    SourceBack(k % 5, k / 5, (2 * (k % 5) + 3 * (k / 5)) / 5, (2 * (k % 5) + 3 * (k / 5)) % 5);
  }

  lemma SourceBack(x: nat, y: nat, q: nat, z: nat)
    requires x < 5 && y < 5 && z < 5 && 2 * x + 3 * y == 5 * q + z
    ensures Source(At(y, z)) == At(x, y)
  {
    DivMod5(y + 5 * z, z, y);
    DivMod5(y + 3 * z, x + 2 * y - 3 * q, x);
  }

  lemma DivMod5(n: nat, q: int, r: nat)
    requires n == 5 * q + r && r < 5
    ensures n % 5 == r && n / 5 == q
  {
  }

  lemma {:induction false} OffsetAlongWalk(t: nat, u: nat)
    requires u <= t < 24
    ensures OffsetFrom(From(t), u) == Rotc(t)
    decreases t - u
  {
    TableIsWalk(u);
    RotcIsTriangular(t);
    if u < t {
      WalkIsSimple(u, t);
      OffsetAlongWalk(t, u + 1);
    }
  }

  // The walk comes to no position twice before it closes.
  lemma WalkIsSimple(u: nat, t: nat)
    requires u < t < 24
    ensures From(u) != From(t)
  {
    TurnOfPiln(t - 1);
    if u > 0 {
      TurnOfPiln(u - 1);
    } else {
      assert TurnOf(1) == 23;
    }
  }

  // What turn a of the loop stores is what sections 3.2.2 and 3.2.3 together put at that position.
  lemma TurnIsRhoPi<L>(w: Word<L>, s: seq<L>, a: nat, k: nat, f: nat, n: nat)
    requires IsState(s) && a < 24 && k == Piln(a) && f == From(a) && n == Rotc(a)
    ensures Pi(Rho(w, s))[k] == w.rotl(s[f], n)
  {
    PilnFollowsWalk(a);
    SourceOfNext(f);
    OffsetAlongWalk(a, 0);
    RhoPiAt(w, s, k, f, n);
  }

  lemma RhoPiAt<L>(w: Word<L>, s: seq<L>, k: nat, f: nat, n: nat)
    requires IsState(s) && k < 25 && Source(k) == f && Offset(f) == n
    ensures Pi(Rho(w, s))[k] == w.rotl(s[f], n)
  {
  }

  lemma OriginStays<L>(w: Word<L>, s: seq<L>)
    requires IsState(s) && w.rotl(s[0], 0) == s[0]
    ensures Pi(Rho(w, s))[0] == s[0]
  {
    RhoPiAt(w, s, 0, 0, 0);
  }

  // ----- the steps of the source, in place

  method RhoPiInPlace<L>(w: Word<L>, st: array<L>)
    requires st.Length == 25 && w.rotl(st[0], 0) == st[0]
    modifies st
    ensures st[..] == Pi(Rho(w, old(st[..])))
  {
    ghost var s := st[..];
    forall a | 0 <= a < 24 ensures AlongWalk(w, s, Pi(Rho(w, s)), a) {
      TurnIsRhoPi(w, s, a, Piln(a), From(a), Rotc(a));
    }
    OriginStays(w, s);
    WalkCycle(w, st, s, Pi(Rho(w, s)));
  }

  ghost predicate AlongWalk<L>(w: Word<L>, s: seq<L>, r: seq<L>, a: nat)
    requires IsState(s) && IsState(r) && a < 24
  {
    r[Piln(a)] == w.rotl(s[From(a)], Rotc(a))
  }

  // The loop over the one cycle of positions: every turn saves the word that the next turn moves.
  method WalkCycle<L>(w: Word<L>, st: array<L>, ghost s: seq<L>, ghost r: seq<L>)
    requires st.Length == 25 && st[..] == s && IsState(r) && r[0] == s[0]
    requires forall a :: 0 <= a < 24 ==> AlongWalk(w, s, r, a)
    modifies st
    ensures st[..] == r
  {
    var t := st[1];
    for i := 0 to 24
      invariant t == s[From(i)]
      invariant forall k :: 0 <= k < 25 ==> st[k] == if TurnOf(k) < i then r[k] else s[k]
    {
      assert AlongWalk(w, s, r, i);
      var j := Piln(i);
      OnlyTurn(i, j);
      var bc := st[j];
      st[j] := w.rotl(t, Rotc(i));
      t := bc;
    }
  }

  lemma OnlyTurn(a: nat, j: nat)
    requires a < 24 && j == Piln(a)
    ensures TurnOf(j) == a && forall k :: 0 <= k < 25 && k != j ==> TurnOf(k) != a
  {
    TurnOfPiln(a);
    forall k | 0 <= k < 25 && k != j ensures TurnOf(k) != a {
      if k > 0 {
        PositionsRight(k);
      }
    }
  }

  // Two states that agree lane by lane.
  lemma SameLanes<L>(a: seq<L>, b: seq<L>)
    requires IsState(a) && IsState(b)
    requires forall x, y :: 0 <= x < 5 && 0 <= y < 5 ==> a[At(x, y)] == b[At(x, y)]
    ensures a == b
  {
    forall k | 0 <= k < 25 ensures a[k] == b[k] {
      assert k == At(k % 5, k / 5);
    }
  }

  method ThetaInPlace<L>(w: Word<L>, st: array<L>)
    requires st.Length == 25
    modifies st
    ensures st[..] == Theta(w, old(st[..]))
  {
    ghost var s := st[..];
    var bc := Parities(w, st);
    for i := 0 to 5
      invariant forall x, y :: 0 <= x < 5 && 0 <= y < 5 ==>
        st[At(x, y)] == if x < i then w.xor(s[At(x, y)], ThetaEffect(w, s, x)) else s[At(x, y)]
    {
      var t := w.xor(bc[(i + 4) % 5], w.rotl(bc[(i + 1) % 5], 1));
      AddToColumn(w, st, i, t);
    }
    forall x, y | 0 <= x < 5 && 0 <= y < 5 ensures st[..][At(x, y)] == Theta(w, s)[At(x, y)] {
      assert At(x, y) % 5 == x;
    }
    SameLanes(st[..], Theta(w, s));
  }

  method Parities<L>(w: Word<L>, st: array<L>) returns (bc: seq<L>)
    requires st.Length == 25
    ensures |bc| == 5 && forall x :: 0 <= x < 5 ==> bc[x] == ColumnParity(w, st[..], x)
  {
    bc := [];
    for i := 0 to 5
      invariant |bc| == i && forall x :: 0 <= x < i ==> bc[x] == ColumnParity(w, st[..], x)
    {
      bc := bc + [w.xor(w.xor(w.xor(w.xor(st[i], st[i + 5]), st[i + 10]), st[i + 15]), st[i + 20])];
    }
  }

  method AddToColumn<L>(w: Word<L>, st: array<L>, i: nat, t: L)
    requires st.Length == 25 && i < 5
    modifies st
    ensures forall x, y :: 0 <= x < 5 && 0 <= y < 5 ==>
      st[At(x, y)] == if x == i then w.xor(old(st[At(x, y)]), t) else old(st[At(x, y)])
  {
    for y := 0 to 5
      invariant forall x, z :: 0 <= x < 5 && 0 <= z < 5 ==>
        st[At(x, z)] == if x == i && z < y then w.xor(old(st[At(x, z)]), t) else old(st[At(x, z)])
    {
      AtApart(i, y);
      st[At(i, y)] := w.xor(st[At(i, y)], t);
    }
  }

  lemma AtApart(x: nat, y: nat)
    requires x < 5 && y < 5
    ensures forall a, b :: 0 <= a < 5 && 0 <= b < 5 && At(a, b) == At(x, y) ==> a == x && b == y
  {
  }

  method ChiInPlace<L>(w: Word<L>, st: array<L>)
    requires st.Length == 25
    modifies st
    ensures st[..] == Chi(w, old(st[..]))
  {
    ghost var s, r := st[..], Chi(w, st[..]);
    forall y | 0 <= y < 5 ensures RowIsChi(w, s, r, y) {
      ChiAt(w, s, 0, y);
      ChiAt(w, s, 1, y);
      ChiAt(w, s, 2, y);
      ChiAt(w, s, 3, y);
      ChiAt(w, s, 4, y);
    }
    ChiRows(w, st, s, r);
    SameLanes(st[..], r);
  }

  ghost predicate RowIsChi<L>(w: Word<L>, s: seq<L>, r: seq<L>, y: nat)
    requires IsState(s) && IsState(r) && y < 5
  {
    && r[At(0, y)] == ChiOf(w, s, 0, y) && r[At(1, y)] == ChiOf(w, s, 1, y) && r[At(2, y)] == ChiOf(w, s, 2, y)
    && r[At(3, y)] == ChiOf(w, s, 3, y) && r[At(4, y)] == ChiOf(w, s, 4, y)
  }

  method ChiRows<L>(w: Word<L>, st: array<L>, ghost s: seq<L>, ghost r: seq<L>)
    requires st.Length == 25 && st[..] == s && IsState(r) && forall y :: 0 <= y < 5 ==> RowIsChi(w, s, r, y)
    modifies st
    ensures forall x, y :: 0 <= x < 5 && 0 <= y < 5 ==> st[At(x, y)] == r[At(x, y)]
  {
    for y := 0 to 5
      invariant forall x, z :: 0 <= x < 5 && 0 <= z < 5 ==> st[At(x, z)] == if z < y then r[At(x, z)] else s[At(x, z)]
    {
      assert RowIsChi(w, s, r, y);
      ChiRow(w, st, y, s, r);
    }
  }

  lemma ChiAt<L>(w: Word<L>, s: seq<L>, x: nat, y: nat)
    requires IsState(s) && x < 5 && y < 5
    ensures Chi(w, s)[At(x, y)] == ChiOf(w, s, x, y)
  {
    assert At(x, y) % 5 == x && At(x, y) / 5 == y;
  }

  // A row is copied before it is overwritten.
  method ChiRow<L>(w: Word<L>, st: array<L>, y: nat, ghost s: seq<L>, ghost r: seq<L>)
    requires st.Length == 25 && y < 5 && IsState(s) && IsState(r) && RowIsChi(w, s, r, y)
    requires forall x :: 0 <= x < 5 ==> st[At(x, y)] == s[At(x, y)]
    modifies st
    ensures forall x, z :: 0 <= x < 5 && 0 <= z < 5 ==>
      st[At(x, z)] == if z == y then r[At(x, z)] else old(st[At(x, z)])
  {
    var bc := [st[At(0, y)], st[At(1, y)], st[At(2, y)], st[At(3, y)], st[At(4, y)]];
    for i := 0 to 5
      invariant forall x, z :: 0 <= x < 5 && 0 <= z < 5 ==>
        st[At(x, z)] == if z == y && x < i then r[At(x, z)] else old(st[At(x, z)])
    {
      AtApart(i, y);
      RowAt(w, s, r, y, i, bc);
      st[At(i, y)] := w.xor(st[At(i, y)], w.andNot(bc[(i + 1) % 5], bc[(i + 2) % 5]));
    }
  }

  lemma RowAt<L>(w: Word<L>, s: seq<L>, r: seq<L>, y: nat, i: nat, bc: seq<L>)
    requires IsState(s) && IsState(r) && y < 5 && i < 5 && RowIsChi(w, s, r, y)
    requires bc == [s[At(0, y)], s[At(1, y)], s[At(2, y)], s[At(3, y)], s[At(4, y)]]
    ensures r[At(i, y)] == w.xor(s[At(i, y)], w.andNot(bc[(i + 1) % 5], bc[(i + 2) % 5]))
  {
    if i == 0 {
    } else if i == 1 {
    } else if i == 2 {
    } else if i == 3 {
    } else {
    }
  }

  // ----- the rounds

  // A round constant is added to lane 0,0.
  function Iota<L>(w: Word<L>, s: seq<L>, c: L): (r: seq<L>)
    requires IsState(s)
    ensures IsState(r)
  {
    s[0 := w.xor(s[0], c)]
  }

  function Round<L>(w: Word<L>, s: seq<L>, c: L): (r: seq<L>)
    requires IsState(s)
    ensures IsState(r)
  {
    Iota(w, Chi(w, Pi(Rho(w, Theta(w, s)))), c)
  }

  function Rounds<L>(w: Word<L>, s: seq<L>, cs: seq<L>): (r: seq<L>)
    requires IsState(s)
    ensures IsState(r)
    decreases |cs|
  {
    if cs == [] then s else Rounds(w, Round(w, s, cs[0]), cs[1..])
  }

  ghost predicate RotatesByNothing<L(!new)>(w: Word<L>) {
    forall a: L :: w.rotl(a, 0) == a
  }

  // sha3_keccakf with the table of round constants
  method Keccakf<L(!new)>(w: Word<L>, st: array<L>, rndc: seq<L>)
    requires st.Length == 25 && RotatesByNothing(w)
    modifies st
    ensures st[..] == Rounds(w, old(st[..]), rndc)
  {
    assert rndc[0..] == rndc;
    for r := 0 to |rndc|
      invariant Rounds(w, old(st[..]), rndc) == Rounds(w, st[..], rndc[r..])
    {
      assert rndc[r..][1..] == rndc[r + 1..];
      ghost var s := st[..];
      ThetaInPlace(w, st);
      RhoPiInPlace(w, st);
      ChiInPlace(w, st);
      st[0] := w.xor(st[0], rndc[r]);
      assert st[..] == Round(w, s, rndc[r]);
    }
  }
}
