// Registers that are linear over exclusive-or, fed one bit at a time: the algebra behind a CRC, for any word type.
module LinearRegister {

  datatype Register<!W> = Register(step: W -> W, xor: (W, W) -> W, zero: W, one: W)

  // Exclusive-or is a group operation in which everything is its own inverse, and the step respects it. Each law
  // has a name, and a proof names the instances it uses.
  ghost predicate Linear<W(!new)>(g: Register<W>) {
    && (forall x, y {:trigger Adds(g, x, y)} :: Adds(g, x, y))
    && (forall x, y, z {:trigger Associates(g, x, y, z)} :: Associates(g, x, y, z))
    && (forall x, y {:trigger Commutes(g, x, y)} :: Commutes(g, x, y))
    && (forall x {:trigger Cancels(g, x)} :: Cancels(g, x))
  }

  predicate Adds<W(==)>(g: Register<W>, x: W, y: W) {
    g.step(g.xor(x, y)) == g.xor(g.step(x), g.step(y))
  }

  predicate Associates<W(==)>(g: Register<W>, x: W, y: W, z: W) {
    g.xor(g.xor(x, y), z) == g.xor(x, g.xor(y, z))
  }

  predicate Commutes<W(==)>(g: Register<W>, x: W, y: W) {
    g.xor(x, y) == g.xor(y, x)
  }

  predicate Cancels<W(==)>(g: Register<W>, x: W) {
    g.xor(x, g.zero) == x && g.xor(x, x) == g.zero
  }

  ghost predicate Injective<W(!new)>(g: Register<W>) {
    forall x, y :: g.step(x) == g.step(y) ==> x == y
  }

  function Bit<W>(g: Register<W>, b: bool): W {
    if b then g.one else g.zero
  }

  function Run<W>(g: Register<W>, c: W, n: nat): W {
    if n == 0 then c else g.step(Run(g, c, n - 1))
  }

  // The register after taking in the bits, first bit first.
  function Feed<W>(g: Register<W>, c: W, bits: seq<bool>): W {
    if bits == [] then c
    else
      var k := |bits| - 1;
      g.step(g.xor(Feed(g, c, bits[..k]), Bit(g, bits[k])))
  }

  // Schoolbook division: the remainder of the polynomial whose coefficients are p, highest power first, where a
  // one coefficient enters the register at `last`.
  function Remainder<W>(g: Register<W>, last: W, p: seq<bool>): W {
    if p == [] then g.zero
    else
      var k := |p| - 1;
      g.xor(g.step(Remainder(g, last, p[..k])), Coefficient(g, last, p[k]))
  }

  function Coefficient<W>(g: Register<W>, last: W, b: bool): W {
    if b then last else g.zero
  }

  function XorBits(a: seq<bool>, b: seq<bool>): (r: seq<bool>)
    requires |a| == |b|
    ensures |r| == |a|
  {
    seq(|a|, i requires 0 <= i < |a| => a[i] != b[i])
  }

  function ZeroBits(n: nat): (r: seq<bool>)
    ensures |r| == n
  {
    seq(n, _ => false)
  }

  predicate Odd(bits: seq<bool>) {
    if bits == [] then false else Odd(bits[..|bits| - 1]) != bits[|bits| - 1]
  }

  // ----- running

  lemma {:induction false} RunLinear<W(!new)>(g: Register<W>, x: W, y: W, n: nat)
    requires Linear(g)
    ensures Run(g, g.xor(x, y), n) == g.xor(Run(g, x, n), Run(g, y, n))
  {
    if n > 0 {
      RunLinear(g, x, y, n - 1);
      assert Adds(g, Run(g, x, n - 1), Run(g, y, n - 1));
    }
  }

  lemma StepOfZero<W(!new)>(g: Register<W>)
    requires Linear(g)
    ensures g.step(g.zero) == g.zero
  {
    assert Cancels(g, g.zero) && Adds(g, g.zero, g.zero) && Cancels(g, g.step(g.zero));
  }

  lemma {:induction false} RunOfZero<W(!new)>(g: Register<W>, n: nat)
    requires Linear(g)
    ensures Run(g, g.zero, n) == g.zero
  {
    if n > 0 {
      RunOfZero(g, n - 1);
      StepOfZero(g);
    }
  }

  lemma {:induction false} RunInjective<W(!new)>(g: Register<W>, x: W, y: W, n: nat)
    requires Injective(g) && Run(g, x, n) == Run(g, y, n)
    ensures x == y
  {
    if n > 0 {
      RunInjective(g, x, y, n - 1);
    }
  }

  lemma {:induction false} RunCompose<W>(g: Register<W>, x: W, m: nat, n: nat)
    ensures Run(g, Run(g, x, m), n) == Run(g, x, m + n)
  {
    if n > 0 {
      RunCompose(g, x, m, n - 1);
    }
  }

  // ----- feeding

  lemma {:induction false} FeedSplit<W>(g: Register<W>, c: W, a: seq<bool>, b: seq<bool>)
    ensures Feed(g, c, a + b) == Feed(g, Feed(g, c, a), b)
  {
    if b == [] {
      assert a + b == a;
    } else {
      var k := |b| - 1;
      assert (a + b)[..|a| + k] == a + b[..k];
      FeedSplit(g, c, a, b[..k]);
    }
  }

  lemma {:induction false} FeedInjective<W(!new)>(g: Register<W>, x: W, y: W, bits: seq<bool>)
    requires Linear(g) && Injective(g) && Feed(g, x, bits) == Feed(g, y, bits)
    ensures x == y
  {
    if bits != [] {
      var k := |bits| - 1;
      var b := Bit(g, bits[k]);
      var p, q := Feed(g, x, bits[..k]), Feed(g, y, bits[..k]);
      assert Associates(g, p, b, b) && Associates(g, q, b, b) && Cancels(g, b) && Cancels(g, p) && Cancels(g, q);
      FeedInjective(g, x, y, bits[..k]);
    }
  }

  // What was in the register and what is fed act independently.
  lemma {:induction false} FeedSeparates<W(!new)>(g: Register<W>, x: W, y: W, a: seq<bool>, b: seq<bool>)
    requires Linear(g) && |a| == |b|
    ensures Feed(g, g.xor(x, y), XorBits(a, b)) == g.xor(Feed(g, x, a), Feed(g, y, b))
  {
    if a != [] {
      var k := |a| - 1;
      assert XorBits(a, b)[..k] == XorBits(a[..k], b[..k]);
      FeedSeparates(g, x, y, a[..k], b[..k]);
      var p, q := Feed(g, x, a[..k]), Feed(g, y, b[..k]);
      BitsAdd(g, a[k], b[k]);
      Shuffle(g, p, q, Bit(g, a[k]), Bit(g, b[k]));
      assert Adds(g, g.xor(p, Bit(g, a[k])), g.xor(q, Bit(g, b[k])));
    }
  }

  lemma BitsAdd<W(!new)>(g: Register<W>, a: bool, b: bool)
    requires Linear(g)
    ensures Bit(g, a != b) == g.xor(Bit(g, a), Bit(g, b))
  {
    assert Cancels(g, g.one) && Cancels(g, g.zero) && Commutes(g, g.zero, g.one);
  }

  lemma Shuffle<W(!new)>(g: Register<W>, p: W, q: W, a: W, b: W)
    requires Linear(g)
    ensures g.xor(g.xor(p, q), g.xor(a, b)) == g.xor(g.xor(p, a), g.xor(q, b))
  {
    assert Associates(g, p, q, g.xor(a, b)) && Associates(g, q, a, b) && Commutes(g, q, a) && Associates(g, a, q, b);
    assert Associates(g, p, a, g.xor(q, b));
  }

  // ----- feeding a word at once

  // A way to pack bits into a word: push puts a bit below the bits of v; small(v, k) says that v holds k bits.
  datatype Packing<!W> = Packing(push: (W, bool) -> W, small: (W, nat) -> bool, width: nat)

  ghost predicate Packs<W(!new)>(g: Register<W>, pk: Packing<W>) {
    && pk.small(g.zero, 0)
    && (forall v, b, k {:trigger PushFits(pk, v, b, k)} :: PushFits(pk, v, b, k))
    && (forall u, a, v, b, k {:trigger PushApart(pk, u, a, v, b, k)} :: PushApart(pk, u, a, v, b, k))
    && (forall c, v, b, k {:trigger PushSteps(g, pk, c, v, b, k)} :: PushSteps(g, pk, c, v, b, k))
  }

  predicate PushFits<W>(pk: Packing<W>, v: W, b: bool, k: nat) {
    pk.small(v, k) && k < pk.width ==> pk.small(pk.push(v, b), k + 1)
  }

  predicate PushApart<W(==)>(pk: Packing<W>, u: W, a: bool, v: W, b: bool, k: nat) {
    pk.small(u, k) && pk.small(v, k) && k < pk.width && pk.push(u, a) == pk.push(v, b) ==> u == v && a == b
  }

  // A step takes the lowest bit into account and lets the others move down.
  predicate PushSteps<W(==)>(g: Register<W>, pk: Packing<W>, c: W, v: W, b: bool, k: nat) {
    pk.small(v, k) && k < pk.width ==> g.step(g.xor(c, pk.push(v, b))) == g.xor(g.step(g.xor(c, Bit(g, b))), v)
  }

  // The word that holds the bits, first bit lowest.
  function Pack<W>(g: Register<W>, pk: Packing<W>, w: seq<bool>): W {
    if w == [] then g.zero else pk.push(Pack(g, pk, w[1..]), w[0])
  }

  function PushFour<W>(pk: Packing<W>, v: W, b0: bool, b1: bool, b2: bool, b3: bool): W {
    pk.push(pk.push(pk.push(pk.push(v, b3), b2), b1), b0)
  }

  lemma PackFour<W>(g: Register<W>, pk: Packing<W>, w: seq<bool>)
    requires |w| >= 4
    ensures Pack(g, pk, w) == PushFour(pk, Pack(g, pk, w[4..]), w[0], w[1], w[2], w[3])
  {
    assert w[1..][1..] == w[2..] && w[2..][1..] == w[3..] && w[3..][1..] == w[4..];
    assert Pack(g, pk, w[3..]) == pk.push(Pack(g, pk, w[4..]), w[3]);
    assert Pack(g, pk, w[2..]) == pk.push(Pack(g, pk, w[3..]), w[2]);
  }

  lemma PackEight<W>(g: Register<W>, pk: Packing<W>, w: seq<bool>)
    requires |w| == 8
    ensures Pack(g, pk, w)
         == PushFour(pk, PushFour(pk, g.zero, w[4], w[5], w[6], w[7]), w[0], w[1], w[2], w[3])
  {
    PackFour(g, pk, w);
    PackFour(g, pk, w[4..]);
    assert w[4..][4..] == [];
  }

  lemma {:induction false} PackFits<W(!new)>(g: Register<W>, pk: Packing<W>, w: seq<bool>)
    requires Packs(g, pk) && |w| <= pk.width
    ensures pk.small(Pack(g, pk, w), |w|)
  {
    if w != [] {
      PackFits(g, pk, w[1..]);
      assert PushFits(pk, Pack(g, pk, w[1..]), w[0], |w| - 1);
    }
  }

  lemma {:induction false} PackInjective<W(!new)>(g: Register<W>, pk: Packing<W>, w: seq<bool>, x: seq<bool>)
    requires Packs(g, pk) && |w| == |x| <= pk.width && Pack(g, pk, w) == Pack(g, pk, x)
    ensures w == x
  {
    if w != [] {
      PackFits(g, pk, w[1..]);
      PackFits(g, pk, x[1..]);
      assert PushApart(pk, Pack(g, pk, w[1..]), w[0], Pack(g, pk, x[1..]), x[0], |w| - 1);
      PackInjective(g, pk, w[1..], x[1..]);
      assert w == [w[0]] + w[1..] && x == [x[0]] + x[1..];
    }
  }

  // Feeding no more bits than fit a word is adding that word and then running.
  lemma {:induction false} FeedTogether<W(!new)>(g: Register<W>, pk: Packing<W>, c: W, w: seq<bool>)
    requires Linear(g) && Packs(g, pk) && |w| <= pk.width
    ensures Feed(g, c, w) == Run(g, g.xor(c, Pack(g, pk, w)), |w|)
    decreases |w|
  {
    if w == [] {
      assert Cancels(g, c);
    } else {
      var rest, v := w[1..], Pack(g, pk, w[1..]);
      PackFits(g, pk, rest);
      assert w == [w[0]] + rest && [w[0]][..0] == [];
      FeedSplit(g, c, [w[0]], rest);
      FeedTogether(g, pk, Feed(g, c, [w[0]]), rest);
      assert PushSteps(g, pk, c, v, w[0], |rest|);
      StepOutward(g, g.xor(c, Pack(g, pk, w)), |rest|);
    }
  }

  // A burst no longer than a word shows: from one state, different bits lead to different states, and what follows
  // keeps them different.
  lemma BurstShows<W(!new)>(g: Register<W>, pk: Packing<W>, c: W, w: seq<bool>, x: seq<bool>, rest: seq<bool>)
    requires Linear(g) && Injective(g) && Packs(g, pk) && |w| == |x| <= pk.width && w != x
    ensures Feed(g, c, w + rest) != Feed(g, c, x + rest)
  {
    var p, q := Pack(g, pk, w), Pack(g, pk, x);
    FeedSplit(g, c, w, rest);
    FeedSplit(g, c, x, rest);
    if Feed(g, c, w + rest) == Feed(g, c, x + rest) {
      FeedInjective(g, Feed(g, c, w), Feed(g, c, x), rest);
      FeedTogether(g, pk, c, w);
      FeedTogether(g, pk, c, x);
      RunInjective(g, g.xor(c, p), g.xor(c, q), |w|);
      assert Commutes(g, c, p) && Commutes(g, c, q) && Associates(g, p, c, c) && Associates(g, q, c, c);
      assert Cancels(g, c) && Cancels(g, p) && Cancels(g, q);
      PackInjective(g, pk, w, x);
    }
  }

  lemma CutInThree(p: seq<bool>, i: nat, n: nat)
    requires i + n <= |p|
    ensures p == p[..i] + (p[i..i + n] + p[i + n..])
  {
  }

  // The same for two messages that differ, but only within n bits from position i on.
  lemma BurstShowsAt<W(!new)>(g: Register<W>, pk: Packing<W>, c: W, p: seq<bool>, q: seq<bool>, i: nat, n: nat)
    requires Linear(g) && Injective(g) && Packs(g, pk) && |p| == |q| && p != q && n <= pk.width && i + n <= |p|
    requires forall j :: 0 <= j < |p| && !(i <= j < i + n) ==> p[j] == q[j]
    ensures Feed(g, c, p) != Feed(g, c, q)
  {
    var a, w, x, rest := p[..i], p[i..i + n], q[i..i + n], p[i + n..];
    assert q[..i] == a && q[i + n..] == rest;
    CutInThree(p, i, n);
    CutInThree(q, i, n);
    FeedSplit(g, c, a, w + rest);
    FeedSplit(g, c, a, x + rest);
    BurstShows(g, pk, Feed(g, c, a), w, x, rest);
  }

  // ----- division

  lemma {:induction false} RemainderLinear<W(!new)>(g: Register<W>, last: W, a: seq<bool>, b: seq<bool>)
    requires Linear(g) && |a| == |b|
    ensures Remainder(g, last, XorBits(a, b)) == g.xor(Remainder(g, last, a), Remainder(g, last, b))
  {
    if a != [] {
      var k := |a| - 1;
      assert XorBits(a, b)[..k] == XorBits(a[..k], b[..k]);
      RemainderLinear(g, last, a[..k], b[..k]);
      var p, q := Remainder(g, last, a[..k]), Remainder(g, last, b[..k]);
      assert Adds(g, p, q) && Cancels(g, last) && Cancels(g, g.zero) && Commutes(g, g.zero, last);
      Shuffle(g, g.step(p), g.step(q), Coefficient(g, last, a[k]), Coefficient(g, last, b[k]));
    }
  }

  lemma {:induction false} RemainderShifts<W(!new)>(g: Register<W>, last: W, p: seq<bool>, n: nat)
    requires Linear(g)
    ensures Remainder(g, last, p + ZeroBits(n)) == Run(g, Remainder(g, last, p), n)
  {
    if n == 0 {
      assert p + ZeroBits(0) == p;
    } else {
      assert (p + ZeroBits(n))[..|p| + n - 1] == p + ZeroBits(n - 1);
      RemainderShifts(g, last, p, n - 1);
      assert Cancels(g, Run(g, Remainder(g, last, p), n));
    }
  }

  // Feeding an empty register divides the message, shifted up by the width of the register.
  lemma {:induction false} FeedDivides<W(!new)>(g: Register<W>, last: W, width: nat, m: seq<bool>)
    requires Linear(g) && Run(g, last, width) == g.step(g.one)
    ensures Feed(g, g.zero, m) == Run(g, Remainder(g, last, m), width)
  {
    RunOfZero(g, width);
    if m != [] {
      var k := |m| - 1;
      FeedDivides(g, last, width, m[..k]);
      var r := Remainder(g, last, m[..k]);
      RunLinear(g, g.step(r), Coefficient(g, last, m[k]), width);
      StepOutward(g, r, width);
      StepOfZero(g);
      assert Adds(g, Run(g, r, width), Bit(g, m[k]));
    }
  }

  lemma {:induction false} StepOutward<W>(g: Register<W>, x: W, n: nat)
    ensures Run(g, g.step(x), n) == g.step(Run(g, x, n))
  {
    if n > 0 {
      StepOutward(g, x, n - 1);
    }
  }

  // The register after a message m, started with the remainder of the polynomial c: the remainder of
  // c * x^|m| + m * x^width.
  lemma FeedIsDivision<W(!new)>(g: Register<W>, last: W, c: seq<bool>, m: seq<bool>)
    requires Linear(g) && Run(g, last, |c|) == g.step(g.one)
    ensures Feed(g, Remainder(g, last, c), m) == Remainder(g, last, XorBits(c + ZeroBits(|m|), m + ZeroBits(|c|)))
  {
    var r := Remainder(g, last, c);
    RemainderLinear(g, last, c + ZeroBits(|m|), m + ZeroBits(|c|));
    RemainderShifts(g, last, c, |m|);
    RemainderShifts(g, last, m, |c|);
    FeedDivides(g, last, |c|, m);
    assert XorBits(ZeroBits(|m|), m) == m;
    FeedSeparates(g, r, g.zero, ZeroBits(|m|), m);
    FeedZeros(g, r, |m|);
    assert Cancels(g, r);
  }

  lemma {:induction false} FeedZeros<W(!new)>(g: Register<W>, c: W, n: nat)
    requires Linear(g)
    ensures Feed(g, c, ZeroBits(n)) == Run(g, c, n)
  {
    if n > 0 {
      assert ZeroBits(n)[..n - 1] == ZeroBits(n - 1);
      FeedZeros(g, c, n - 1);
      assert Cancels(g, Run(g, c, n - 1));
    }
  }

  // ----- parity

  // A parity that steps keep and that a fed one flips measures the parity of the message.
  ghost predicate Keeps<W(!new)>(g: Register<W>, parity: W -> bool) {
    forall x {:trigger KeepsAt(g, parity, x)} :: KeepsAt(g, parity, x)
  }

  predicate KeepsAt<W>(g: Register<W>, parity: W -> bool, x: W) {
    parity(g.step(x)) == parity(x) && parity(g.xor(x, g.one)) != parity(x)
  }

  lemma {:induction false} FeedParity<W(!new)>(g: Register<W>, parity: W -> bool, c: W, bits: seq<bool>)
    requires Linear(g) && Keeps(g, parity)
    ensures parity(Feed(g, c, bits)) == (parity(c) != Odd(bits))
  {
    if bits != [] {
      var k := |bits| - 1;
      FeedParity(g, parity, c, bits[..k]);
      var r := Feed(g, c, bits[..k]);
      assert Cancels(g, r) && KeepsAt(g, parity, r) && KeepsAt(g, parity, g.xor(r, Bit(g, bits[k])));
    }
  }
}
