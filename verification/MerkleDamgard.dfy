// What MD5, SHA-1 and SHA-256 have in common: a compression function folded over 64-byte blocks of the padded message.
// The compression function stays a parameter.
module MerkleDamgard {
  import opened Bytes

  const M32 := 0x1_0000_0000
  const M64 := 0x1_0000_0000_0000_0000

  // The fold over all full blocks of s; what is left over does not count.
  function Blocks<S>(f: (S, seq<byte>) -> S, h: S, s: seq<byte>): S
    decreases |s|
  {
    if |s| < 64 then h else Blocks(f, f(h, s[..64]), s[64..])
  }

  // The last, incomplete block of a message.
  function Tail(m: seq<byte>): (t: seq<byte>)
    ensures |t| == |m| % 64
  {
    m[|m| - |m| % 64..]
  }

  lemma {:induction false} BlocksSplit<S>(f: (S, seq<byte>) -> S, h: S, a: seq<byte>, b: seq<byte>)
    requires |a| % 64 == 0
    ensures Blocks(f, h, a + b) == Blocks(f, Blocks(f, h, a), b)
    decreases |a|
  {
    if |a| == 0 {
      assert a + b == b;
    } else {
      assert (a + b)[..64] == a[..64] && (a + b)[64..] == a[64..] + b;
      BlocksSplit(f, f(h, a[..64]), a[64..], b);
    }
  }

  lemma OneBlock<S>(f: (S, seq<byte>) -> S, h: S, b: seq<byte>)
    requires |b| == 64
    ensures Blocks(f, h, b) == f(h, b)
  {
    assert b[..64] == b && b[64..] == [];
  }

  // The incomplete block and then more bytes: together they are what follows the full blocks.
  lemma BlocksOfMore<S>(f: (S, seq<byte>) -> S, h: S, m: seq<byte>, b: seq<byte>)
    ensures Blocks(f, h, m + b) == Blocks(f, Blocks(f, h, m), Tail(m) + b)
  {
    var a := m[..|m| - |m| % 64];
    assert m == a + Tail(m) && m + b == a + (Tail(m) + b);
    BlocksSplit(f, h, a, Tail(m));
    BlocksSplit(f, h, a, Tail(m) + b);
  }

  lemma TailOfMore(m: seq<byte>, b: seq<byte>)
    ensures |m| % 64 + |b| < 64 ==> Tail(m + b) == Tail(m) + b
    ensures |m| % 64 + |b| == 64 ==> Tail(m + b) == []
  {
    ModOfSum(|m|, |b|);
    if |m| % 64 + |b| < 64 {
      assert |m + b| - |m + b| % 64 == |m| - |m| % 64;
    }
  }

  lemma ModOfSum(x: nat, y: nat)
    ensures x % 64 + y < 64 ==> (x + y) % 64 == x % 64 + y
    ensures x % 64 + y == 64 ==> (x + y) % 64 == 0
  {
  }

  // ----- padding: one bit, zeros up to 56 bytes past a block boundary, the length

  // The fewest zeros that make message, marker byte, zeros and eight length bytes fill whole blocks.
  function ZeroCount(n: nat): nat {
    if n % 64 <= 55 then 55 - n % 64 else 119 - n % 64
  }

  function Padding(n: nat, marker: byte, length: seq<byte>): seq<byte> {
    [marker] + Zeros(ZeroCount(n)) + length
  }

  lemma PaddingFillsBlocks(n: nat, z: nat)
    ensures (n + 1 + ZeroCount(n) + 8) % 64 == 0
    ensures (n + 1 + z + 8) % 64 == 0 ==> z >= ZeroCount(n)
  {
  }

  // The digest of the standards: the fold over the padded message.
  function Digest<S>(f: (S, seq<byte>) -> S, h: S, m: seq<byte>, marker: byte, length: seq<byte>): S {
    Blocks(f, h, m + Padding(|m|, marker, length))
  }

  lemma DigestFromTail<S>(f: (S, seq<byte>) -> S, h: S, m: seq<byte>, marker: byte, length: seq<byte>)
    ensures Digest(f, h, m, marker, length) == Blocks(f, Blocks(f, h, m), Tail(m) + Padding(|m|, marker, length))
  {
    BlocksOfMore(f, h, m, Padding(|m|, marker, length));
  }

  lemma RegroupFour<T>(a: seq<T>, b: seq<T>, c: seq<T>, d: seq<T>)
    ensures a + (b + c + d) == a + b + c + d
  {
  }

  lemma ZerosSplit(a: nat, b: nat)
    ensures Zeros(a + b) == Zeros(a) + Zeros(b)
  {
  }

  // The padding goes into one block or, when the incomplete block leaves no room for the length, into two.
  lemma DigestInOneBlock<S>(f: (S, seq<byte>) -> S, h: S, m: seq<byte>, t: seq<byte>, marker: byte, length: seq<byte>,
                            last: seq<byte>)
    requires |length| == 8 && t == Tail(m) && |t| <= 55
    requires last == t + [marker] + Zeros(55 - |t|) + length
    ensures Digest(f, h, m, marker, length) == f(Blocks(f, h, m), last)
  {
    DigestFromTail(f, h, m, marker, length);
    PaddingInOne(f, Blocks(f, h, m), t, |m|, |t|, marker, length, last);
  }

  lemma PaddingInOne<S>(f: (S, seq<byte>) -> S, h: S, t: seq<byte>, n: nat, k: nat, marker: byte, length: seq<byte>,
                        last: seq<byte>)
    requires |length| == 8 && |t| == k == n % 64 && k <= 55 && last == t + [marker] + Zeros(55 - k) + length
    ensures Blocks(f, h, t + Padding(n, marker, length)) == f(h, last)
  {
    RegroupFour(t, [marker], Zeros(55 - k), length);
    OneBlock(f, h, last);
  }

  lemma DigestInTwoBlocks<S>(f: (S, seq<byte>) -> S, h: S, m: seq<byte>, t: seq<byte>, marker: byte, length: seq<byte>,
                             first: seq<byte>, last: seq<byte>)
    requires |length| == 8 && t == Tail(m) && |t| > 55
    requires first == t + [marker] + Zeros(63 - |t|) && last == Zeros(56) + length
    ensures Digest(f, h, m, marker, length) == f(f(Blocks(f, h, m), first), last)
  {
    DigestFromTail(f, h, m, marker, length);
    PaddingInTwo(f, Blocks(f, h, m), t, |m|, |t|, marker, length, first, last);
  }

  lemma TwoBlocks<S>(f: (S, seq<byte>) -> S, h: S, first: seq<byte>, last: seq<byte>)
    requires |first| == 64 && |last| == 64
    ensures Blocks(f, h, first + last) == f(f(h, first), last)
  {
    BlocksSplit(f, h, first, last);
    OneBlock(f, h, first);
    OneBlock(f, f(h, first), last);
  }

  lemma PaddingInTwo<S>(f: (S, seq<byte>) -> S, h: S, t: seq<byte>, n: nat, k: nat, marker: byte, length: seq<byte>,
                        first: seq<byte>, last: seq<byte>)
    requires |length| == 8 && |t| == k == n % 64 && k > 55
    requires first == t + [marker] + Zeros(63 - k) && last == Zeros(56) + length
    ensures Blocks(f, h, t + Padding(n, marker, length)) == f(f(h, first), last)
  {
    PaddingCut(t, k, marker, length);
    TwoBlocks(f, h, first, last);
  }

  lemma PaddingCut(t: seq<byte>, k: nat, marker: byte, length: seq<byte>)
    requires 55 < k < 64
    ensures t + ([marker] + Zeros(119 - k) + length) == (t + [marker] + Zeros(63 - k)) + (Zeros(56) + length)
  {
    ZerosSplit(63 - k, 56);
    RegroupFour(t, [marker], Zeros(63 - k) + Zeros(56), length);
  }

  // ----- the length in eight bytes

  function LittleEndian(n: nat, width: nat): (s: seq<byte>)
    ensures |s| == width
    decreases width
  {
    if width == 0 then [] else [n % 256] + LittleEndian(n / 256, width - 1)
  }

  function BigEndian(n: nat, width: nat): (s: seq<byte>)
    ensures |s| == width
    decreases width
  {
    if width == 0 then [] else BigEndian(n / 256, width - 1) + [n % 256]
  }

  function Pow256(w: nat): (p: nat)
    ensures p > 0
  {
    if w == 0 then 1 else 256 * Pow256(w - 1)
  }

  lemma {:induction false} LittleEndianJoins(lo: nat, hi: nat, w: nat, v: nat)
    requires lo < Pow256(w)
    ensures LittleEndian(lo + Pow256(w) * hi, w + v) == LittleEndian(lo, w) + LittleEndian(hi, v)
    decreases w
  {
    if w == 0 {
      assert LittleEndian(lo, 0) + LittleEndian(hi, v) == LittleEndian(hi, v);
    } else {
      var p := Pow256(w - 1);
      LowDigit(lo, hi, p);
      LittleEndianJoins(lo / 256, hi, w - 1, v);
      assert [lo % 256] + LittleEndian(lo / 256, w - 1) + LittleEndian(hi, v)
          == [lo % 256] + (LittleEndian(lo / 256, w - 1) + LittleEndian(hi, v));
    }
  }

  lemma {:induction false} BigEndianJoins(hi: nat, lo: nat, v: nat, w: nat)
    requires lo < Pow256(w)
    ensures BigEndian(lo + Pow256(w) * hi, v + w) == BigEndian(hi, v) + BigEndian(lo, w)
    decreases w
  {
    if w == 0 {
      assert BigEndian(hi, v) + BigEndian(lo, 0) == BigEndian(hi, v);
    } else {
      var p := Pow256(w - 1);
      LowDigit(lo, hi, p);
      BigEndianJoins(hi, lo / 256, v, w - 1);
      assert BigEndian(hi, v) + BigEndian(lo / 256, w - 1) + [lo % 256]
          == BigEndian(hi, v) + (BigEndian(lo / 256, w - 1) + [lo % 256]);
    }
  }

  lemma LowDigit(lo: nat, hi: nat, p: nat)
    requires 0 < p && lo < 256 * p
    ensures (lo + 256 * p * hi) % 256 == lo % 256 && (lo + 256 * p * hi) / 256 == lo / 256 + p * hi
    ensures lo / 256 < p
  {
    assert 256 * p * hi == 256 * (p * hi);
    DivByDigit(lo, p * hi);
  }

  lemma DivByDigit(lo: nat, k: nat)
    ensures (lo + 256 * k) % 256 == lo % 256 && (lo + 256 * k) / 256 == lo / 256 + k
  {
  }

  lemma WordWidth()
    ensures Pow256(4) == M32
  {
    assert Pow256(1) == 256;
    assert Pow256(2) == 0x1_0000;
    assert Pow256(3) == 0x100_0000;
  }
}
