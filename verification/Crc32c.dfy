// CRC32C (lib/crc32c.c): the table-driven form of the source against bit-serial division, its agreement with the
// polynomial definition of section 13.1 of RFC 7143, chaining, and the corruptions it cannot miss.
module Crc32c {
  import opened Octets
  import opened LinearRegister
  import opened CrcTable

  const ONES: word := 0xffffffff
  const TOP: word := 0x80000000

  // The register of the source: bits enter at the low end, which is the high end of the polynomial.
  function Xor(x: word, y: word): word {
    x ^ y
  }

  const REGISTER: Register<word> := Register(Step, Xor, 0, 1)

  // ----- laws of the register

  lemma XorShift(x: word, y: word)
    ensures (x ^ y) >> 1 == (x >> 1) ^ (y >> 1)
    ensures (x ^ y) & 1 == (x & 1) ^ (y & 1)
  {
  }

  lemma LowBit(x: word)
    ensures x & 1 == 0 || x & 1 == 1
    ensures x & 1 == 0 ==> Step(x) == x >> 1
    ensures x & 1 == 1 ==> Step(x) == (x >> 1) ^ 0x82F63B78
  {
  }

  lemma XorMoves(a: word, b: word, p: word)
    ensures (a ^ p) ^ b == (a ^ b) ^ p
    ensures a ^ (b ^ p) == (a ^ b) ^ p
    ensures (a ^ p) ^ (b ^ p) == a ^ b
  {
  }

  lemma StepLinear(x: word, y: word)
    ensures Step(Xor(x, y)) == Xor(Step(x), Step(y))
  {
    XorShift(x, y);
    LowBit(x);
    LowBit(y);
    LowBit(x ^ y);
    XorMoves(x >> 1, y >> 1, 0x82F63B78);
  }

  lemma StepInjective(x: word, y: word)
    requires Step(x) == Step(y)
    ensures x == y
  {
  }

  lemma LawAdds(x: word, y: word)
    ensures Adds(REGISTER, x, y)
  {
    StepLinear(x, y);
  }

  lemma XorAssociates(x: word, y: word, z: word)
    ensures Xor(Xor(x, y), z) == Xor(x, Xor(y, z))
  {
  }

  lemma LawAssociates(x: word, y: word, z: word)
    ensures Associates(REGISTER, x, y, z)
  {
    XorAssociates(x, y, z);
  }

  lemma LawCommutes(x: word, y: word)
    ensures Commutes(REGISTER, x, y)
  {
  }

  lemma LawCancels(x: word)
    ensures Cancels(REGISTER, x)
  {
  }

  lemma RegisterLaws()
    ensures Linear(REGISTER) && Injective(REGISTER)
  {
    forall x, y ensures Adds(REGISTER, x, y) && Commutes(REGISTER, x, y) && Cancels(REGISTER, x) {
      LawAdds(x, y);
      LawCommutes(x, y);
      LawCancels(x);
    }
    forall x, y, z ensures Associates(REGISTER, x, y, z) {
      LawAssociates(x, y, z);
    }
    forall x, y | REGISTER.step(x) == REGISTER.step(y) ensures x == y {
      StepInjective(x, y);
    }
  }

  // A bit put in at the far end is, 32 steps later, a bit that has just entered at the near end.
  lemma TopRunsThrough()
    ensures Run(REGISTER, TOP, 32) == REGISTER.step(REGISTER.one)
  {
    RunCompose(REGISTER, TOP, 8, 24);
    RunCompose(REGISTER, 0x00800000, 8, 16);
    RunCompose(REGISTER, 0x00008000, 8, 8);
    EightRuns(TOP);
    EightRuns(0x00800000);
    EightRuns(0x00008000);
    EightRuns(0x00000080);
  }

  lemma EightRuns(c: word)
    ensures Run(REGISTER, c, 8) == EightSteps(c)
  {
    RunCompose(REGISTER, c, 4, 4);
    FourRuns(c);
    FourRuns(FourSteps(c));
  }

  lemma FourRuns(c: word)
    ensures Run(REGISTER, c, 4) == FourSteps(c)
  {
    var c1 := Step(c);
    var c2 := Step(c1);
    assert Run(REGISTER, c, 1) == REGISTER.step(Run(REGISTER, c, 0)) == c1;
    assert Run(REGISTER, c, 2) == c2;
    assert Run(REGISTER, c, 3) == Step(c2);
  }

  // ----- packing bits into words

  const PACKING: Packing<word> := Packing(Push, Small, 32)

  function Push(v: word, b: bool): word {
    if b then (v << 1) | 1 else v << 1
  }

  // The upper r bits of v are clear.
  predicate Room(v: word, r: nat)
    decreases r
  {
    r == 0 || (v & TOP == 0 && Room(v << 1, r - 1))
  }

  predicate Small(v: word, k: nat) {
    k <= 32 && Room(v, 32 - k)
  }

  lemma {:induction false} RoomOfZero(r: nat)
    ensures Room(0, r)
  {
    if r > 0 {
      assert (0 as word) << 1 == 0;
      RoomOfZero(r - 1);
    }
  }

  lemma {:induction false} RoomOfUnion(u: word, v: word, r: nat)
    requires Room(u, r) && Room(v, r)
    ensures Room(u | v, r)
    decreases r
  {
    if r > 0 {
      UnionShifts(u, v);
      RoomOfUnion(u << 1, v << 1, r - 1);
    }
  }

  lemma UnionShifts(u: word, v: word)
    ensures (u | v) << 1 == (u << 1) | (v << 1) && (u | v) & TOP == (u & TOP) | (v & TOP)
  {
  }

  lemma RoomOfOne(r: nat)
    requires r <= 31
    ensures Room(1, r)
  {
    assert Room(0x40000000, 1) && Room(0x10000000, 3) && Room(0x04000000, 5) && Room(0x01000000, 7);
    assert Room(0x00400000, 9) && Room(0x00100000, 11) && Room(0x00040000, 13) && Room(0x00010000, 15);
    assert Room(0x00004000, 17) && Room(0x00001000, 19) && Room(0x00000400, 21) && Room(0x00000100, 23);
    assert Room(0x00000040, 25) && Room(0x00000010, 27) && Room(0x00000004, 29) && Room(0x00000001, 31);
    RoomShrinks(1, 31, r);
  }

  lemma {:induction false} RoomShrinks(v: word, r: nat, q: nat)
    requires q <= r && Room(v, r)
    ensures Room(v, q)
    decreases r
  {
    if q > 0 {
      RoomShrinks(v << 1, r - 1, q - 1);
    }
  }

  lemma PushKeepsRoom(v: word, r: nat, b: bool)
    requires 1 <= r <= 32 && Room(v, r)
    ensures v & TOP == 0 && Room(Push(v, b), r - 1)
  {
    RoomOfOne(r - 1);
    RoomOfUnion(v << 1, 1, r - 1);
  }

  lemma PushIsInjective(u: word, a: bool, v: word, b: bool)
    requires u & TOP == 0 && v & TOP == 0 && Push(u, a) == Push(v, b)
    ensures u == v && a == b
  {
  }

  lemma PushParts(c: word, v: word)
    requires v & TOP == 0
    ensures (c ^ (v << 1)) >> 1 == (c >> 1) ^ v && (c ^ (v << 1)) & 1 == c & 1
    ensures (c ^ ((v << 1) | 1)) >> 1 == ((c ^ 1) >> 1) ^ v && (c ^ ((v << 1) | 1)) & 1 == (c ^ 1) & 1
  {
  }

  lemma StepFromParts(u: word, t: word, v: word)
    requires u >> 1 == (t >> 1) ^ v && u & 1 == t & 1
    ensures Step(u) == Xor(Step(t), v)
  {
    LowBit(u);
    LowBit(t);
    XorMoves(t >> 1, v, 0x82F63B78);
  }

  lemma StepOfPushedOne(c: word, v: word)
    requires v & TOP == 0
    ensures Step(Xor(c, Push(v, true))) == Xor(Step(Xor(c, 1)), v)
  {
    PushParts(c, v);
    StepFromParts(Xor(c, Push(v, true)), Xor(c, 1), v);
  }

  lemma XorWithZero(c: word)
    ensures Xor(c, 0) == c
  {
  }

  lemma StepOfPushedZero(c: word, v: word)
    requires v & TOP == 0
    ensures Step(Xor(c, Push(v, false))) == Xor(Step(Xor(c, 0)), v)
  {
    PushParts(c, v);
    XorWithZero(c);
    StepFromParts(Xor(c, Push(v, false)), c, v);
  }

  lemma PackingLaws()
    ensures Packs(REGISTER, PACKING)
  {
    RoomOfZero(32);
    forall v, b, k: nat ensures PushFits(PACKING, v, b, k) {
      if k < 32 && Small(v, k) {
        PushKeepsRoom(v, 32 - k, b);
      }
    }
    forall u, a, v, b, k: nat ensures PushApart(PACKING, u, a, v, b, k) {
      if k < 32 && Small(u, k) && Small(v, k) && Push(u, a) == Push(v, b) {
        PushIsInjective(u, a, v, b);
      }
    }
    forall c, v, b, k: nat ensures PushSteps(REGISTER, PACKING, c, v, b, k) {
      if k < 32 && Small(v, k) {
        if b {
          StepOfPushedOne(c, v);
        } else {
          StepOfPushedZero(c, v);
        }
      }
    }
  }

  // ----- bytes

  // The bits of a byte in the order in which they are sent, lowest first.
  function BitsOf(b: byte): (bits: seq<bool>)
    ensures |bits| == 8
  {
    [b & 0x01 != 0, b & 0x02 != 0, b & 0x04 != 0, b & 0x08 != 0, b & 0x10 != 0, b & 0x20 != 0, b & 0x40 != 0,
     b & 0x80 != 0]
  }

  function Bits(s: seq<byte>): (bits: seq<bool>)
    ensures |bits| == 8 * |s|
  {
    if s == [] then [] else BitsOf(s[0]) + Bits(s[1..])
  }

  function LowByte(x: word): byte {
    LowByteFits(x);
    (x & 0xff) as byte
  }

  lemma LowByteFits(x: word)
    ensures x & 0xff < 0x100
  {
  }

  // A lookup table that holds eight steps of the register for every byte.
  ghost predicate RightTable(t: seq<word>) {
    |t| == 256 && forall i: byte {:trigger RightAt(t, i)} :: RightAt(t, i)
  }

  predicate RightAt(t: seq<word>, i: byte)
    requires |t| == 256
  {
    t[i as int] == Run(REGISTER, i as word, 8)
  }

  // One turn of the loops of the source.
  function ByteStep(t: seq<word>, crc: word, b: byte): word
    requires |t| == 256
  {
    Xor(crc >> 8, t[LowByte(Xor(crc, b as word)) as int])
  }

  function Chain(t: seq<word>, crc: word, s: seq<byte>): word
    requires |t| == 256
    decreases |s|
  {
    if s == [] then crc else Chain(t, ByteStep(t, crc, s[0]), s[1..])
  }

  lemma HighBitsShift(x: word)
    requires x & 0xff == 0
    ensures EightSteps(x) == x >> 8
  {
  }

  lemma HighBitsRun(x: word)
    requires x & 0xff == 0
    ensures Run(REGISTER, x, 8) == x >> 8
  {
    HighBitsShift(x);
    EightRuns(x);
  }

  lemma SplitWord(x: word)
    ensures Xor(x & 0xffffff00, LowByte(x) as word) == x
    ensures (x & 0xffffff00) & 0xff == 0 && (x & 0xffffff00) >> 8 == x >> 8
  {
    LowByteFits(x);
  }

  lemma RunOfSplit(x: word)
    ensures Run(REGISTER, x, 8) == Xor(x >> 8, Run(REGISTER, LowByte(x) as word, 8))
  {
    SplitWord(x);
    HighBitsRun(x & 0xffffff00);
    RegisterLaws();
    RunLinear(REGISTER, x & 0xffffff00, LowByte(x) as word, 8);
  }

  lemma ByteAboveShifts(crc: word, b: byte)
    ensures Xor(crc, b as word) >> 8 == crc >> 8
  {
  }

  lemma ByteStepRuns(t: seq<word>, crc: word, b: byte)
    requires RightTable(t)
    ensures ByteStep(t, crc, b) == Run(REGISTER, Xor(crc, b as word), 8)
  {
    var x := Xor(crc, b as word);
    RunOfSplit(x);
    ByteAboveShifts(crc, b);
    assert RightAt(t, LowByte(x));
  }

  lemma ByteIsPacked(b: byte)
    ensures Pack(REGISTER, PACKING, BitsOf(b)) == b as word
  {
    PackEight(REGISTER, PACKING, BitsOf(b));
    BitsRebuildByte(b);
  }

  lemma BitsRebuildByte(b: byte)
    ensures PushFour(PACKING, PushFour(PACKING, 0, b & 0x10 != 0, b & 0x20 != 0, b & 0x40 != 0, b & 0x80 != 0),
                     b & 0x01 != 0, b & 0x02 != 0, b & 0x04 != 0, b & 0x08 != 0) == b as word
  {
  }

  lemma ByteStepFeeds(t: seq<word>, crc: word, b: byte)
    requires RightTable(t)
    ensures ByteStep(t, crc, b) == Feed(REGISTER, crc, BitsOf(b))
  {
    RegisterLaws();
    PackingLaws();
    ByteStepRuns(t, crc, b);
    ByteIsPacked(b);
    FeedTogether(REGISTER, PACKING, crc, BitsOf(b));
  }

  // The table-driven loop is bit-serial division, for every buffer.
  lemma {:induction false} ChainIsFeed(t: seq<word>, crc: word, s: seq<byte>)
    requires RightTable(t)
    ensures Chain(t, crc, s) == Feed(REGISTER, crc, Bits(s))
    decreases |s|
  {
    if s != [] {
      ByteStepFeeds(t, crc, s[0]);
      ChainIsFeed(t, ByteStep(t, crc, s[0]), s[1..]);
      FeedSplit(REGISTER, crc, BitsOf(s[0]), Bits(s[1..]));
    }
  }

  // ----- the polynomial definition

  // Bit reversal, and division as section 13.1 of RFC 7143 writes it: highest power at the top of the register.
  function Reverse(x: word): word {
    var a := ((x >> 1) & 0x55555555) | ((x & 0x55555555) << 1);
    var b := ((a >> 2) & 0x33333333) | ((a & 0x33333333) << 2);
    var c := ((b >> 4) & 0x0f0f0f0f) | ((b & 0x0f0f0f0f) << 4);
    var d := ((c >> 8) & 0x00ff00ff) | ((c & 0x00ff00ff) << 8);
    (d >> 16) | (d << 16)
  }

  // Bring the next coefficient down; if x^32 appears, subtract x^32 + 0x1EDC6F41.
  function BringDown(r: word, b: bool): word {
    Subtract(Push(r, b), r & TOP != 0)
  }

  function Subtract(u: word, top: bool): word {
    if top then u ^ 0x1EDC6F41 else u
  }

  function PolynomialRemainder(p: seq<bool>): word {
    if p == [] then 0 else BringDown(PolynomialRemainder(p[..|p| - 1]), p[|p| - 1])
  }

  lemma ReverseOfShift(r: word)
    ensures Reverse(r << 1) == Reverse(r) >> 1
  {
  }

  lemma ReverseOfShiftIn(r: word)
    ensures Reverse((r << 1) | 1) == (Reverse(r) >> 1) ^ TOP
  {
  }

  lemma ReverseOfPolynomial(r: word)
    ensures Reverse(r ^ 0x1EDC6F41) == Reverse(r) ^ 0x82F63B78
  {
  }

  lemma ReverseOfTop(r: word)
    ensures Reverse(r) & 1 == 1 <==> r & TOP != 0
  {
  }

  // What the proof needs of a reversal, named law by law, so that it need not look into the function.
  predicate ShiftsDown(rev: word -> word, r: word) { rev(r << 1) == rev(r) >> 1 }
  predicate ShiftsIn(rev: word -> word, r: word) { rev((r << 1) | 1) == (rev(r) >> 1) ^ TOP }
  predicate MapsPolynomial(rev: word -> word, r: word) { rev(r ^ 0x1EDC6F41) == rev(r) ^ 0x82F63B78 }
  predicate MapsTop(rev: word -> word, r: word) { rev(r) & 1 == 1 <==> r & TOP != 0 }

  ghost predicate Reverses(rev: word -> word) {
    && rev(0) == 0
    && (forall r {:trigger ShiftsDown(rev, r)} :: ShiftsDown(rev, r))
    && (forall r {:trigger ShiftsIn(rev, r)} :: ShiftsIn(rev, r))
    && (forall r {:trigger MapsPolynomial(rev, r)} :: MapsPolynomial(rev, r))
    && (forall r {:trigger MapsTop(rev, r)} :: MapsTop(rev, r))
  }

  const REVERSE: word -> word := x => Reverse(x)

  lemma LawShiftsDown(r: word)
    ensures ShiftsDown(REVERSE, r)
  {
    ReverseOfShift(r);
  }

  lemma LawShiftsIn(r: word)
    ensures ShiftsIn(REVERSE, r)
  {
    ReverseOfShiftIn(r);
  }

  lemma LawMapsPolynomial(r: word)
    ensures MapsPolynomial(REVERSE, r)
  {
    ReverseOfPolynomial(r);
  }

  lemma LawMapsTop(r: word)
    ensures MapsTop(REVERSE, r)
  {
    ReverseOfTop(r);
  }

  lemma ReverseLaws()
    ensures Reverses(REVERSE)
  {
    forall r ensures ShiftsDown(REVERSE, r) { LawShiftsDown(r); }
    forall r ensures ShiftsIn(REVERSE, r) { LawShiftsIn(r); }
    forall r ensures MapsPolynomial(REVERSE, r) { LawMapsPolynomial(r); }
    forall r ensures MapsTop(REVERSE, r) { LawMapsTop(r); }
  }

  lemma StepOfReversed(v: word, pushed: word, b: bool)
    requires pushed == if b then (v >> 1) ^ TOP else v >> 1
    ensures v & 1 == 1 ==> pushed ^ 0x82F63B78 == Xor(Step(v), if b then TOP else 0)
    ensures v & 1 == 0 ==> pushed == Xor(Step(v), if b then TOP else 0)
  {
    LowBit(v);
    XorMoves(v >> 1, 0, TOP);
    XorMoves(v >> 1, 0x82F63B78, TOP);
    XorWithZero(Step(v));
  }

  lemma ReverseOfPush(rev: word -> word, r: word, b: bool)
    requires Reverses(rev)
    ensures rev(Push(r, b)) == if b then (rev(r) >> 1) ^ TOP else rev(r) >> 1
  {
    assert ShiftsDown(rev, r) && ShiftsIn(rev, r);
  }

  lemma StepOnReversed(v: word, p: word, q: word, top: bool, b: bool)
    requires p == (if b then (v >> 1) ^ TOP else v >> 1) && q == p ^ 0x82F63B78 && (v & 1 == 1 <==> top)
    ensures (if top then q else p) == Xor(Step(v), if b then TOP else 0)
  {
    LowBit(v);
    StepOfReversed(v, p, b);
  }

  lemma ReversedTop(rev: word -> word, r: word)
    requires Reverses(rev)
    ensures rev(r) & 1 == 1 <==> r & TOP != 0
  {
    assert MapsTop(rev, r);
  }

  lemma ReverseOfSubtract(rev: word -> word, u: word, top: bool)
    requires Reverses(rev)
    ensures rev(Subtract(u, top)) == if top then rev(u) ^ 0x82F63B78 else rev(u)
  {
    assert MapsPolynomial(rev, u);
  }

  // A coefficient brought down, in steps that do not look into one another.
  lemma PushCases(rev: word -> word, r: word, b: bool) returns (u: word, v: word, p: word, top: bool)
    requires Reverses(rev)
    ensures BringDown(r, b) == Subtract(u, top) && v == rev(r) && p == rev(u)
    ensures p == (if b then (v >> 1) ^ TOP else v >> 1) && (v & 1 == 1 <==> top)
  {
    u, v, p, top := Push(r, b), rev(r), rev(Push(r, b)), r & TOP != 0;
    ReverseOfPush(rev, r, b);
    ReversedTop(rev, r);
  }

  lemma BringDownCases(rev: word -> word, r: word, b: bool) returns (v: word, p: word, q: word, top: bool)
    requires Reverses(rev)
    ensures v == rev(r) && rev(BringDown(r, b)) == if top then q else p
    ensures p == if b then (v >> 1) ^ TOP else v >> 1
    ensures q == p ^ 0x82F63B78 && (v & 1 == 1 <==> top)
  {
    var u;
    u, v, p, top := PushCases(rev, r, b);
    ReverseOfSubtract(rev, u, top);
    q := p ^ 0x82F63B78;
  }

  lemma ReverseOfBringDown(rev: word -> word, r: word, b: bool)
    requires Reverses(rev)
    ensures rev(BringDown(r, b)) == Xor(Step(rev(r)), if b then TOP else 0)
  {
    var v, p, q, top := BringDownCases(rev, r, b);
    StepOnReversed(v, p, q, top, b);
  }

  lemma {:induction false} RemainderIsReversed(rev: word -> word, p: seq<bool>)
    requires Reverses(rev)
    ensures Remainder(REGISTER, TOP, p) == rev(PolynomialRemainder(p))
  {
    if p != [] {
      RemainderIsReversed(rev, p[..|p| - 1]);
      ReverseOfBringDown(rev, PolynomialRemainder(p[..|p| - 1]), p[|p| - 1]);
    }
  }

  // ----- parity of a word

  // Folding a word onto itself, half by half, down to one bit: set when the word has an odd number of ones.
  function Fold16(x: word): word { (x ^ (x >> 16)) & 0xffff }
  function Fold8(x: word): word { (x ^ (x >> 8)) & 0xff }

  predicate Parity8(x: word) {
    var n := (x ^ (x >> 4)) & 0xf;
    var m := (n ^ (n >> 2)) & 3;
    (m ^ (m >> 1)) & 1 == 1
  }

  predicate Parity16(x: word) {
    Parity8(Fold8(x))
  }

  predicate Parity(x: word) {
    Parity16(Fold16(x))
  }

  lemma ParityOfFlip(x: word, y: word)
    requires y == x ^ 1
    ensures Parity(y) != Parity(x)
  {
    FlipFold16(x);
    Flip16(Fold16(x), Fold16(y));
  }

  lemma FlipFold16(x: word)
    ensures Fold16(x ^ 1) == Fold16(x) ^ 1
  {
  }

  lemma Flip16(a: word, a': word)
    requires a' == a ^ 1
    ensures Parity16(a') != Parity16(a)
  {
    FlipFold8(a);
    Flip8(Fold8(a), Fold8(a'));
  }

  lemma FlipFold8(a: word)
    ensures Fold8(a ^ 1) == Fold8(a) ^ 1
  {
  }

  lemma Flip8(b: word, b': word)
    requires b' == b ^ 1
    ensures Parity8(b') != Parity8(b)
  {
  }

  // Moving an even word down by one turns each of its folds by one. An odd word is made even first, and the polynomial
  // is added, whose folds are 0xb98e and 0x37: the bit that leaves a fold comes back in at its top, flipped.
  function Turned(x: word, top: word): word {
    if x & 1 == 1 then (x >> 1) | top else x >> 1
  }

  function TurnedFlipped(x: word, top: word): word {
    if x & 1 == 1 then x >> 1 else (x >> 1) | top
  }

  lemma EvenStepFold16(x: word)
    requires x & 1 == 0
    ensures Fold16(x >> 1) == Turned(Fold16(x), 0x8000) && Fold16(x) <= 0xffff
  {
  }

  lemma OddStepFold16(x: word)
    requires x & 1 == 1
    ensures Fold16((x >> 1) ^ 0x82F63B78) == TurnedFlipped(Fold16(x), 0x8000) ^ 0xb98e && Fold16(x) <= 0xffff
  {
  }

  lemma EvenStepFold8(a: word)
    requires a <= 0xffff
    ensures Fold8(Turned(a, 0x8000)) == Turned(Fold8(a), 0x80) && Fold8(a) <= 0xff
  {
  }

  lemma OddStepFold8(a: word)
    requires a <= 0xffff
    ensures Fold8(TurnedFlipped(a, 0x8000) ^ 0xb98e) == TurnedFlipped(Fold8(a), 0x80) ^ 0x37 && Fold8(a) <= 0xff
  {
  }

  lemma StepParity8(b: word)
    requires b <= 0xff
    ensures Parity8(Turned(b, 0x80)) == Parity8(b) && Parity8(TurnedFlipped(b, 0x80) ^ 0x37) == Parity8(b)
  {
  }

  lemma EvenStepParity16(a: word, a': word)
    requires a <= 0xffff && a' == Turned(a, 0x8000)
    ensures Parity16(a') == Parity16(a)
  {
    EvenStepFold8(a);
    StepParity8(Fold8(a));
  }

  lemma OddStepParity16(a: word, a': word)
    requires a <= 0xffff && a' == TurnedFlipped(a, 0x8000) ^ 0xb98e
    ensures Parity16(a') == Parity16(a)
  {
    OddStepFold8(a);
    StepParity8(Fold8(a));
  }

  lemma ParityOfEvenStep(x: word, y: word)
    requires x & 1 == 0 && y == x >> 1
    ensures Parity(y) == Parity(x)
  {
    EvenStepFold16(x);
    EvenStepParity16(Fold16(x), Fold16(y));
  }

  lemma ParityOfOddStep(x: word, y: word)
    requires x & 1 == 1 && y == (x >> 1) ^ 0x82F63B78
    ensures Parity(y) == Parity(x)
  {
    OddStepFold16(x);
    OddStepParity16(Fold16(x), Fold16(y));
  }

  lemma ParityOfStep(x: word, y: word)
    requires y == Step(x)
    ensures Parity(y) == Parity(x)
  {
    LowBit(x);
    if x & 1 == 0 {
      ParityOfEvenStep(x, y);
    } else {
      ParityOfOddStep(x, y);
    }
  }

  const PARITY: word -> bool := x => Parity(x)

  lemma ParityLaws()
    ensures Keeps(REGISTER, PARITY)
  {
    forall x ensures KeepsAt(REGISTER, PARITY, x) {
      ParityOfStep(x, Step(x));
      ParityOfFlip(x, Xor(x, 1));
    }
  }

  // ----- what the functions of the source compute

  // crc32c, crc32c_init and crc32c_chain_done.
  function Crc(t: seq<word>, s: seq<byte>): word
    requires |t| == 256
  {
    Chain(t, ONES, s) ^ ONES
  }

  lemma {:induction false} ChainSplit(t: seq<word>, crc: word, a: seq<byte>, b: seq<byte>)
    requires |t| == 256
    ensures Chain(t, crc, a + b) == Chain(t, Chain(t, crc, a), b)
    decreases |a|
  {
    if a == [] {
      assert a + b == b;
    } else {
      assert (a + b)[1..] == a[1..] + b;
      ChainSplit(t, ByteStep(t, crc, a[0]), a[1..], b);
    }
  }

  // Chaining over any cutting of the data and finishing gives the one-shot value.
  lemma {:induction false} ChainingIsOneShot(t: seq<word>, crc: word, pieces: seq<seq<byte>>)
    requires |t| == 256
    ensures ChainPieces(t, crc, pieces) == Chain(t, crc, Flatten(pieces))
    ensures crc == ONES ==> ChainPieces(t, crc, pieces) ^ ONES == Crc(t, Flatten(pieces))
    decreases |pieces|
  {
    if pieces != [] {
      ChainSplit(t, crc, pieces[0], Flatten(pieces[1..]));
      ChainingIsOneShot(t, Chain(t, crc, pieces[0]), pieces[1..]);
    }
  }

  function ChainPieces(t: seq<word>, crc: word, pieces: seq<seq<byte>>): word
    requires |t| == 256
    decreases |pieces|
  {
    if pieces == [] then crc else ChainPieces(t, Chain(t, crc, pieces[0]), pieces[1..])
  }

  function Flatten(pieces: seq<seq<byte>>): seq<byte> {
    if pieces == [] then [] else pieces[0] + Flatten(pieces[1..])
  }

  function Ones(n: nat): seq<bool> {
    seq(n, _ => true)
  }

  // The value of the source is the one section 13.1 of RFC 7143 defines: the remainder of the message with its first
  // 32 bits complemented (here: 32 ones added at the front), shifted up by 32, complemented, sent low bit first.
  lemma CrcIsPolynomialRemainder(t: seq<word>, s: seq<byte>)
    requires RightTable(t)
    ensures Crc(t, s) ==
              Reverse(PolynomialRemainder(XorBits(Ones(32) + ZeroBits(8 * |s|), Bits(s) + ZeroBits(32)))) ^ ONES
  {
    RegisterLaws();
    TopRunsThrough();
    RemainderOfOnes();
    ReverseLaws();
    RemainderIsReversed(REVERSE, Ones(32));
    ChainIsFeed(t, ONES, s);
    FeedIsDivision(REGISTER, TOP, Ones(32), Bits(s));
    RemainderIsReversed(REVERSE, XorBits(Ones(32) + ZeroBits(8 * |s|), Bits(s) + ZeroBits(32)));
  }

  lemma OneMore(k: nat, r: word, r': word)
    requires PolynomialRemainder(Ones(k)) == r && r & TOP == 0 && r' == (r << 1) | 1
    ensures PolynomialRemainder(Ones(k + 1)) == r'
  {
    assert Ones(k + 1)[..k] == Ones(k);
  }

  lemma FourMore(k: nat, r: word, r1: word, r2: word, r3: word, r4: word)
    requires PolynomialRemainder(Ones(k)) == r && r & TOP == 0 && r1 & TOP == 0 && r2 & TOP == 0 && r3 & TOP == 0
    requires r1 == (r << 1) | 1 && r2 == (r1 << 1) | 1 && r3 == (r2 << 1) | 1 && r4 == (r3 << 1) | 1
    ensures PolynomialRemainder(Ones(k + 4)) == r4
  {
    OneMore(k, r, r1);
    OneMore(k + 1, r1, r2);
    OneMore(k + 2, r2, r3);
    OneMore(k + 3, r3, r4);
  }

  lemma RemainderOfOnes()
    ensures PolynomialRemainder(Ones(32)) == ONES && Reverse(ONES) == ONES
  {
    assert Ones(0) == [];
    FourMore(0, 0x0, 0x1, 0x3, 0x7, 0xf);
    FourMore(4, 0xf, 0x1f, 0x3f, 0x7f, 0xff);
    FourMore(8, 0xff, 0x1ff, 0x3ff, 0x7ff, 0xfff);
    FourMore(12, 0xfff, 0x1fff, 0x3fff, 0x7fff, 0xffff);
    FourMore(16, 0xffff, 0x1ffff, 0x3ffff, 0x7ffff, 0xfffff);
    FourMore(20, 0xfffff, 0x1fffff, 0x3fffff, 0x7fffff, 0xffffff);
    FourMore(24, 0xffffff, 0x1ffffff, 0x3ffffff, 0x7ffffff, 0xfffffff);
    FourMore(28, 0xfffffff, 0x1fffffff, 0x3fffffff, 0x7fffffff, 0xffffffff);
  }

  // ----- what cannot go unnoticed

  // Any corruption within 32 consecutive bits, in the order in which bits are sent: in particular any corruption of
  // four consecutive bytes, in a buffer of any length.
  lemma BurstIsDetected(t: seq<word>, x: seq<byte>, y: seq<byte>, i: nat, n: nat)
    requires RightTable(t) && |x| == |y| && x != y && n <= 32 && i + n <= 8 * |x|
    requires forall j :: 0 <= j < 8 * |x| && !(i <= j < i + n) ==> Bits(x)[j] == Bits(y)[j]
    ensures Crc(t, x) != Crc(t, y)
  {
    BitsInjective(x, y);
    RegisterLaws();
    PackingLaws();
    ChainIsFeed(t, ONES, x);
    ChainIsFeed(t, ONES, y);
    BurstShowsAt(REGISTER, PACKING, ONES, Bits(x), Bits(y), i, n);
    ComplementInjective(Chain(t, ONES, x), Chain(t, ONES, y));
  }

  // Any corruption that flips an odd number of bits, wherever they are.
  lemma OddErrorIsDetected(t: seq<word>, x: seq<byte>, y: seq<byte>)
    requires RightTable(t) && |x| == |y| && Odd(XorBits(Bits(x), Bits(y)))
    ensures Crc(t, x) != Crc(t, y)
  {
    RegisterLaws();
    ParityLaws();
    ChainIsFeed(t, ONES, x);
    ChainIsFeed(t, ONES, y);
    FeedParity(REGISTER, PARITY, ONES, Bits(x));
    FeedParity(REGISTER, PARITY, ONES, Bits(y));
    OddAdds(Bits(x), Bits(y));
  }

  lemma {:induction false} OddAdds(a: seq<bool>, b: seq<bool>)
    requires |a| == |b|
    ensures Odd(XorBits(a, b)) == (Odd(a) != Odd(b))
  {
    if a != [] {
      var k := |a| - 1;
      assert XorBits(a, b)[..k] == XorBits(a[..k], b[..k]);
      OddAdds(a[..k], b[..k]);
    }
  }

  lemma ComplementInjective(x: word, y: word)
    ensures x ^ ONES == y ^ ONES ==> x == y
  {
  }

  lemma ByteOfBits(a: byte, b: byte)
    requires BitsOf(a) == BitsOf(b)
    ensures a == b
  {
    ByteIsPacked(a);
    ByteIsPacked(b);
  }

  lemma FirstBits(s: seq<byte>)
    requires s != []
    ensures Bits(s)[..8] == BitsOf(s[0]) && Bits(s)[8..] == Bits(s[1..])
  {
  }

  lemma {:induction false} BitsInjective(x: seq<byte>, y: seq<byte>)
    requires |x| == |y|
    ensures Bits(x) == Bits(y) ==> x == y
  {
    if x != [] && Bits(x) == Bits(y) {
      FirstBits(x);
      FirstBits(y);
      ByteOfBits(x[0], y[0]);
      BitsInjective(x[1..], y[1..]);
      assert x == [x[0]] + x[1..] && y == [y[0]] + y[1..];
    }
  }
}
