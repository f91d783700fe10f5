// The buffering, counting and padding of lib/md5.c. MD5Transform stays a parameter.
module Md5 {
  import opened Bytes
  import opened MerkleDamgard

  class Context<S> {
    const transform: (S, seq<byte>) -> S
    ghost const start: S
    var buf: S
    var bytes0: int
    var bytes1: int
    const block: array<byte>

    // All bytes fed so far.
    ghost var message: seq<byte>

    // MD5Init
    constructor (transform: (S, seq<byte>) -> S, start: S)
      ensures Valid() && message == [] && this.transform == transform && this.start == start
      ensures fresh(block)
    {
      this.transform, this.start, buf := transform, start, start;
      bytes0, bytes1, message := 0, 0, [];
      block := new byte[64](_ => 0);
    }

    ghost predicate Valid()
      reads this, block
    {
      && block.Length == 64
      && 0 <= bytes0 < M32 && 0 <= bytes1 < M32 && bytes1 * M32 + bytes0 == |message| % M64
      && buf == Blocks(transform, start, message)
      && block[..|message| % 64] == Tail(message)
    }

    // memcpy into the block buffer
    method CopyIn(at: nat, data: array<byte>, from: nat, n: nat)
      requires block.Length == 64 && at + n <= 64 && from + n <= data.Length && data != block
      modifies block
      ensures block[at..at + n] == data[from..from + n] && block[..at] == old(block[..at])
    {
      forall i | 0 <= i < n {
        block[at + i] := data[from + i];
      }
    }

    // The block buffer is full.
    method Transform()
      modifies this`buf
      ensures buf == transform(old(buf), block[..])
    {
      buf := transform(buf, block[..]);
    }

    method Update(data: array<byte>, len: nat)
      requires Valid() && data != block && len <= data.Length && len < M32
      modifies this`buf, this`bytes0, this`bytes1, this`message, block
      ensures Valid() && message == old(message) + data[..len]
    {
      var t := bytes0;
      CountUp(t, bytes1, |message|, len);
      bytes0 := (t + len) % M32;
      if bytes0 < t {
        bytes1 := (bytes1 + 1) % M32;
      }
      Fill(data, len, 64 - t % 64);
    }

    // What Update does with the bytes themselves; t is the free space in the block buffer.
    method Fill(data: array<byte>, len: nat, t: nat)
      requires data != block && len <= data.Length && block.Length == 64 && t == 64 - |message| % 64
      requires buf == Blocks(transform, start, message) && block[..|message| % 64] == Tail(message)
      modifies this`buf, this`message, block
      ensures message == old(message) + data[..len]
      ensures buf == Blocks(transform, start, message) && block[..|message| % 64] == Tail(message)
    {
      ghost var m, d := message, data[..len];
      if t > len {
        CopyIn(64 - t, data, 0, len);
        StillIncomplete(transform, start, m, d);
        message := m + d;
        return;
      }
      CopyIn(64 - t, data, 0, t);
      assert block[..] == Tail(m) + d[..t];
      FirstBlock(transform, start, m, d[..t], block[..]);
      Transform();
      TakeBlocks(data, len, t, m + d[..t]);
      Regroup3(m, d, t);
      assert d[t..] == data[t..len];
      message := m + d;
    }

    // The bytes from `from` on, after a message m that fills its blocks.
    method TakeBlocks(data: array<byte>, len: nat, from: nat, ghost m: seq<byte>)
      requires data != block && from <= len <= data.Length && block.Length == 64
      requires buf == Blocks(transform, start, m) && |m| % 64 == 0
      modifies this`buf, block
      ensures buf == Blocks(transform, start, m + data[from..len])
      ensures block[..|m + data[from..len]| % 64] == Tail(m + data[from..len])
    {
      var p := from;
      ghost var cur, rest := m, data[from..len];
      while len - p >= 64
        invariant from <= p <= len && rest == data[p..len]
        invariant |cur| % 64 == 0 && cur + rest == m + data[from..len]
        invariant buf == Blocks(transform, start, cur)
      {
        Advance(cur, rest);
        NextBlock(data, p, cur, rest[..64]);
        cur, rest := cur + rest[..64], rest[64..];
        p := p + 64;
      }
      CopyIn(0, data, p, len - p);
      StillIncomplete(transform, start, cur, rest);
      assert Tail(cur) == [];
    }

    method NextBlock(data: array<byte>, p: nat, ghost m: seq<byte>, ghost b: seq<byte>)
      requires data != block && p + 64 <= data.Length && block.Length == 64 && b == data[p..p + 64]
      requires buf == Blocks(transform, start, m) && |m| % 64 == 0
      modifies this`buf, block
      ensures buf == Blocks(transform, start, m + b) && |m + b| % 64 == 0
    {
      CopyIn(0, data, p, 64);
      assert block[..] == b;
      FullBlock(transform, start, m, b);
      Transform();
    }

    // memset in the block buffer, behind the bytes s
    method Clear(ghost s: seq<byte>, at: nat, n: nat)
      requires block.Length == 64 && at + n <= 64 && block[..at] == s
      modifies block
      ensures block[..at + n] == s + Zeros(n)
    {
      forall i | 0 <= i < n {
        block[at + i] := 0;
      }
    }

    // The two length words behind the padding.
    method PutLength(ghost s: seq<byte>)
      requires block.Length == 64 && 0 <= bytes0 < M32 && 0 <= bytes1 < M32 && block[..56] == s
      modifies block
      ensures block[..] == s + LittleEndian(8 * (bytes1 * M32 + bytes0) % M64, 8)
    {
      var low, high := bytes0 * 8 % M32, bytes1 * 8 % M32 + bytes0 / 0x2000_0000;
      BitCount(bytes0, bytes1);
      WordWidth();
      LittleEndianJoins(low, high, 4, 4);
      Put(s, LittleEndian(low, 4) + LittleEndian(high, 4));
    }

    method Put(ghost s: seq<byte>, bytes: seq<byte>)
      requires block.Length == 64 && 56 + |bytes| == 64 && block[..56] == s
      modifies block
      ensures block[..] == s + bytes
    {
      forall i | 0 <= i < |bytes| {
        block[56 + i] := bytes[i];
      }
    }

    // MD5Final up to the output of the words; the context is not used afterwards.
    method Final() returns (digest: S)
      requires Valid()
      modifies this`buf, block
      ensures digest == Digest(transform, start, message, 0x80, LittleEndian(8 * |message| % M64, 8))
    {
      EightTimes(|message|, bytes1 * M32 + bytes0);
      CountUp(bytes0, bytes1, |message|, 0);
      digest := Pad(bytes0 % 64, LittleEndian(8 * (bytes1 * M32 + bytes0) % M64, 8));
    }

    method Pad(count: nat, ghost length: seq<byte>) returns (digest: S)
      requires block.Length == 64 && count == |message| % 64 && block[..count] == Tail(message)
      requires buf == Blocks(transform, start, message) && 0 <= bytes0 < M32 && 0 <= bytes1 < M32
      requires length == LittleEndian(8 * (bytes1 * M32 + bytes0) % M64, 8)
      modifies this`buf, block
      ensures digest == Digest(transform, start, message, 0x80, length)
    {
      ghost var t := Tail(message) + [0x80];
      block[count] := 0x80;
      assert block[..count + 1] == t;
      if 55 - count < 0 {
        PadTwo(count, t, length);
        DigestInTwoBlocks(transform, start, message, Tail(message), 0x80, length, t + Zeros(63 - count),
                          Zeros(56) + length);
      } else {
        PadOne(count, t, length);
        DigestInOneBlock(transform, start, message, Tail(message), 0x80, length, t + Zeros(55 - count) + length);
      }
      digest := buf;
    }

    method PadOne(count: nat, ghost t: seq<byte>, ghost length: seq<byte>)
      requires block.Length == 64 && count <= 55 && block[..count + 1] == t && 0 <= bytes0 < M32 && 0 <= bytes1 < M32
      requires length == LittleEndian(8 * (bytes1 * M32 + bytes0) % M64, 8)
      modifies this`buf, block
      ensures buf == transform(old(buf), t + Zeros(55 - count) + length)
    {
      Clear(t, count + 1, 55 - count);
      PutLength(t + Zeros(55 - count));
      Transform();
    }

    // The length does not fit behind the message any more: an extra block.
    method PadTwo(count: nat, ghost t: seq<byte>, ghost length: seq<byte>)
      requires block.Length == 64 && 55 < count < 64 && block[..count + 1] == t
      requires 0 <= bytes0 < M32 && 0 <= bytes1 < M32 && length == LittleEndian(8 * (bytes1 * M32 + bytes0) % M64, 8)
      modifies this`buf, block
      ensures buf == transform(transform(old(buf), t + Zeros(63 - count)), Zeros(56) + length)
    {
      Clear(t, count + 1, 63 - count);
      assert block[..] == block[..64];
      Transform();
      assert block[..0] == [] && [] + Zeros(56) == Zeros(56);
      Clear([], 0, 56);
      PutLength(Zeros(56));
      Transform();
    }
  }

  // The count of bits in two words: the three bits shifted out of the low word go into the high one.
  lemma BitCount(b0: int, b1: int)
    requires 0 <= b0 < M32 && 0 <= b1 < M32
    ensures var low := b0 * 8 % M32; var high := b1 * 8 % M32 + b0 / 0x2000_0000;
            0 <= low < M32 && 0 <= high < M32 && low + M32 * high == 8 * (b1 * M32 + b0) % M64
  {
    var q, r := b0 / 0x2000_0000, b1 / 0x2000_0000;
    assert b0 * 8 == q * M32 + (b0 * 8 - q * M32) && 0 <= b0 * 8 - q * M32 < M32;
    assert b1 * 8 == r * M32 + (b1 * 8 - r * M32) && 0 <= b1 * 8 - r * M32 < M32;
    Mod32Is(b0 * 8, q, b0 * 8 - q * M32);
    Mod32Is(b1 * 8, r, b1 * 8 - r * M32);
    ModIs(8 * (b1 * M32 + b0), r, (b1 * 8 - r * M32 + q) * M32 + b0 * 8 - q * M32);
  }

  lemma Mod32Is(x: nat, q: nat, r: nat)
    requires x == q * M32 + r && r < M32
    ensures x % M32 == r
  {
  }

  lemma EightTimes(n: nat, c: nat)
    requires c == n % M64
    ensures 8 * c % M64 == 8 * n % M64
  {
    var q := n / M64;
    var r := 8 * c / M64;
    ModIs(8 * c, r, 8 * c - r * M64);
    ModIs(8 * n, 8 * q + r, 8 * c - r * M64);
  }

  lemma Advance(cur: seq<byte>, rest: seq<byte>)
    requires |rest| >= 64
    ensures cur + rest[..64] + rest[64..] == cur + rest
  {
  }

  lemma Regroup3(m: seq<byte>, d: seq<byte>, p: nat)
    requires p <= |d|
    ensures m + d[..p] + d[p..] == m + d
  {
  }

  lemma StillIncomplete<S>(f: (S, seq<byte>) -> S, h: S, m: seq<byte>, d: seq<byte>)
    requires |m| % 64 + |d| < 64
    ensures Blocks(f, h, m + d) == Blocks(f, h, m) && Tail(m + d) == Tail(m) + d
    ensures |m + d| % 64 == |m| % 64 + |d|
  {
    BlocksOfMore(f, h, m, d);
    TailOfMore(m, d);
    ModOfSum(|m|, |d|);
  }

  lemma FirstBlock<S>(f: (S, seq<byte>) -> S, h: S, m: seq<byte>, d: seq<byte>, b: seq<byte>)
    requires |m| % 64 + |d| == 64 && b == Tail(m) + d
    ensures Blocks(f, h, m + d) == f(Blocks(f, h, m), b) && |m + d| % 64 == 0
  {
    ModOfSum(|m|, |d|);
    BlocksOfMore(f, h, m, d);
    var h' := Blocks(f, h, m);
    OneBlock(f, h', b);
  }

  lemma FullBlock<S>(f: (S, seq<byte>) -> S, h: S, m: seq<byte>, b: seq<byte>)
    requires |m| % 64 == 0 && |b| == 64
    ensures Blocks(f, h, m + b) == f(Blocks(f, h, m), b) && |m + b| % 64 == 0
  {
    BlocksSplit(f, h, m, b);
    OneBlock(f, Blocks(f, h, m), b);
  }

  // The 64-bit counter in two words, with the carry from the low to the high word.
  lemma CountUp(b0: int, b1: int, n: nat, len: nat)
    requires 0 <= b0 < M32 && 0 <= b1 < M32 && b1 * M32 + b0 == n % M64 && len < M32
    ensures var c0 := (b0 + len) % M32; var c1 := if c0 < b0 then (b1 + 1) % M32 else b1;
            0 <= c0 < M32 && 0 <= c1 < M32 && c1 * M32 + c0 == (n + len) % M64
    ensures b0 % 64 == n % 64
  {
    var q := n / M64;
    if b0 + len < M32 {
      ModIs(n + len, q, b1 * M32 + b0 + len);
    } else if b1 + 1 < M32 {
      ModIs(n + len, q, (b1 + 1) * M32 + b0 + len - M32);
    } else {
      ModIs(n + len, q + 1, b0 + len - M32);
    }
    assert n == b0 + 64 * (b1 * 0x400_0000 + q * 0x400_0000_0000_0000);
    SameRest(n, b0, b1 * 0x400_0000 + q * 0x400_0000_0000_0000);
  }

  lemma ModIs(x: nat, q: nat, r: nat)
    requires x == q * M64 + r && r < M64
    ensures x % M64 == r
  {
  }

  lemma SameRest(n: nat, b: nat, k: nat)
    requires n == b + 64 * k
    ensures n % 64 == b % 64
  {
  }
}
