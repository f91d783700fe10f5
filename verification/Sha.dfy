// The buffering, counting and padding that lib/sha1.c and lib/sha224-256.c share. The block function stays a parameter.
module Sha {
  import opened Common
  import opened Bytes
  import opened MerkleDamgard

  // The error codes of include/sha.h.
  const SUCCESS := 0
  const NULL := 1
  const INPUT_TOO_LONG := 2
  const STATE_ERROR := 3

  // Messages of 2^61 bytes and more have a bit count that does not fit into 64 bits.
  const TOO_LONG := 0x2000_0000_0000_0000

  class Context<S> {
    const process: (S, seq<byte>) -> S
    ghost const start: S
    var hash: S
    var lengthLow: int
    var lengthHigh: int
    var index: nat
    const block: array<byte>
    var computed: bool
    var corrupted: int

    // All bytes taken in.
    ghost var message: seq<byte>

    // SHA1Reset, SHA224_256Reset
    constructor (process: (S, seq<byte>) -> S, start: S)
      ensures Valid() && message == [] && this.process == process && this.start == start
      ensures !computed && corrupted == 0 && fresh(block)
    {
      this.process, this.start, hash := process, start, start;
      lengthLow, lengthHigh, index, computed, corrupted, message := 0, 0, 0, false, 0, [];
      block := new byte[64](_ => 0);
    }

    ghost predicate Valid()
      reads this, block
    {
      && block.Length == 64
      && (corrupted == 0 && !computed ==> Open())
      && (corrupted == 0 && computed ==> hash == Wanted())
    }

    // Taking in bytes.
    ghost predicate Open()
      requires block.Length == 64
      reads this, block
    {
      && Counts(lengthHigh, lengthLow, |message|) && index == |message| % 64
      && hash == Blocks(process, start, message) && block[..index] == Tail(message)
    }

    // The digest of the message by the standard: a one bit, zeros, the count of bits in eight bytes, high byte first.
    ghost function Wanted(): S
      reads this
    {
      Digest(process, start, message, 0x80, BigEndian(8 * |message|, 8))
    }

    // The AddLength macro with 8 bits: true when the 64-bit count overflows.
    method AddLength() returns (overflow: bool)
      requires Counts(lengthHigh, lengthLow, |message|)
      modifies this`lengthLow, this`lengthHigh, this`corrupted
      ensures overflow <==> |message| + 1 >= TOO_LONG
      ensures (lengthHigh, lengthLow, overflow) == NextCount(old(lengthHigh), old(lengthLow))
      ensures corrupted == ErrorOf(overflow)
      ensures !overflow ==> Counts(lengthHigh, lengthLow, |message| + 1)
    {
      CountUp(lengthHigh, lengthLow, |message|);
      var addTemp := lengthLow;
      lengthLow := (lengthLow + 8) % M32;
      overflow := false;
      if lengthLow < addTemp {
        lengthHigh := (lengthHigh + 1) % M32;
        overflow := lengthHigh == 0;
      }
      corrupted := if overflow then 1 else 0;
    }

    method ProcessMessageBlock()
      modifies this`hash, this`index
      ensures hash == process(old(hash), block[..]) && index == 0
    {
      hash := process(hash, block[..]);
      index := 0;
    }

    // One byte of the message.
    method TakeByte(b: byte)
      requires Valid() && corrupted == 0 && !computed && |message| + 1 <= TOO_LONG
      modifies this`hash, this`index, this`lengthLow, this`lengthHigh, this`corrupted, this`message, block
      ensures Valid() && message == old(message) + [b]
      ensures corrupted == if |message| >= TOO_LONG then 1 else 0
    {
      ghost var m := message;
      block[index] := b;
      index := index + 1;
      ByteBehind(process, start, m, b);
      assert block[..index] == Tail(m) + [b];
      var overflow := AddLength();
      message := m + [b];
      if !overflow && index == 64 {
        assert block[..] == block[..index];
        ProcessMessageBlock();
      }
    }

    // SHA1Input, SHA256Input: too much input shows only at the next call.
    method Input(data: array?<byte>, length: nat) returns (r: int)
      requires Valid() && (data != null ==> length <= data.Length && data != block)
      modifies this`hash, this`index, this`lengthLow, this`lengthHigh, this`corrupted, this`message, block
      ensures Valid()
      ensures r == if length == 0 then SUCCESS else if data == null then NULL
                   else if computed then STATE_ERROR else old(corrupted)
      ensures r == SUCCESS && length > 0 && |old(message)| + length < TOO_LONG ==>
                corrupted == 0 && message == old(message) + data[..length]
      ensures r == SUCCESS && length > 0 && |old(message)| + length >= TOO_LONG ==> corrupted == 1
      ensures length == 0 || data == null ==>
                corrupted == old(corrupted) && message == old(message)
      ensures r != SUCCESS && data != null ==> corrupted == r
    {
      if length == 0 {
        return SUCCESS;
      }
      if data == null {
        return NULL;
      }
      if computed {
        corrupted := STATE_ERROR;
        return STATE_ERROR;
      }
      if corrupted != 0 {
        return corrupted;
      }
      var p := 0;
      ghost var m := message;
      assert m + data[..0] == m;
      while p < length && corrupted == 0
        invariant 0 <= p <= length && Valid() && !computed && data[..] == old(data[..])
        invariant message == m + data[..p] && |m| + p <= TOO_LONG
        invariant corrupted == if |m| + p >= TOO_LONG then 1 else 0
      {
        TakeByte(data[p]);
        Snoc(m, data[..p], data[p]);
        assert data[..p + 1] == data[..p] + [data[p]];
        p := p + 1;
      }
      return SUCCESS;
    }

    // Zeros behind the bytes s, up to position `limit`.
    method FillZeros(ghost s: seq<byte>, limit: nat)
      requires block.Length == 64 && index <= limit <= 64 && block[..index] == s
      modifies this`index, block
      ensures index == limit && block[..limit] == s + Zeros(limit - |s|)
    {
      assert s + Zeros(0) == s;
      while index < limit
        invariant |s| <= index <= limit && block[..index] == s + Zeros(index - |s|)
      {
        block[index] := 0;
        index := index + 1;
        assert Zeros(index - |s|) == Zeros(index - 1 - |s|) + [0];
        assert block[..index] == block[..index - 1] + [0];
      }
    }

    // SHA1PadMessage, SHA224_256PadMessage
    method PadMessage(padByte: byte)
      requires block.Length == 64 && Open()
      modifies this`hash, this`index, block
      ensures hash == Digest(process, start, message, padByte, BigEndian(8 * |message|, 8))
    {
      ghost var t, length := Tail(message), BigEndian(8 * |message|, 8);
      ghost var first := t + [padByte] + Zeros(if |t| > 55 then 63 - |t| else 55 - |t|);
      if index >= 56 {
        PutPad(padByte, 64);
        assert block[..] == block[..64];
        ProcessMessageBlock();
        assert block[..0] == [] && [] + Zeros(56) == Zeros(56);
        FillZeros([], 56);
        StoreLength(Zeros(56), length);
        DigestInTwoBlocks(process, start, message, t, padByte, length, first, Zeros(56) + length);
      } else {
        PutPad(padByte, 56);
        StoreLength(first, length);
        DigestInOneBlock(process, start, message, t, padByte, length, first + length);
      }
      ProcessMessageBlock();
    }

    method PutPad(padByte: byte, limit: nat)
      requires block.Length == 64 && index < limit <= 64
      modifies this`index, block
      ensures index == limit && block[..limit] == old(block[..index]) + [padByte] + Zeros(limit - old(index) - 1)
    {
      ghost var t := block[..index];
      block[index] := padByte;
      index := index + 1;
      assert block[..index] == t + [padByte];
      FillZeros(t + [padByte], limit);
    }

    // The message length as the last eight bytes.
    method StoreLength(ghost s: seq<byte>, ghost length: seq<byte>)
      requires block.Length == 64 && block[..56] == s && Counts(lengthHigh, lengthLow, |message|)
      requires length == BigEndian(8 * |message|, 8)
      modifies block
      ensures block[..] == s + length
    {
      WordWidth();
      BigEndianJoins(lengthHigh, lengthLow, 4, 4);
      PutWord(s, 56, lengthHigh);
      PutWord(s + BigEndian(lengthHigh, 4), 60, lengthLow);
      assert block[..] == block[..64];
      Regroup(s, BigEndian(lengthHigh, 4), BigEndian(lengthLow, 4));
    }

    method PutWord(ghost s: seq<byte>, at: nat, w: nat)
      requires block.Length == 64 && at + 4 <= 64 && block[..at] == s && w < M32
      modifies block
      ensures block[..at + 4] == s + BigEndian(w, 4)
    {
      WordBytes(w);
      block[at] := w / 0x100_0000 % 256;
      block[at + 1] := w / 0x1_0000 % 256;
      block[at + 2] := w / 0x100 % 256;
      block[at + 3] := w % 256;
    }

    // SHA1Finalize, SHA224_256Finalize
    method Finalize(padByte: byte)
      requires block.Length == 64 && Open()
      modifies this`hash, this`index, this`lengthLow, this`lengthHigh, this`computed, block
      ensures hash == Digest(process, start, message, padByte, BigEndian(8 * |message|, 8)) && computed
    {
      PadMessage(padByte);
      forall i | 0 <= i < 64 {
        block[i] := 0;
      }
      lengthLow, lengthHigh, computed := 0, 0, true;
    }

    // SHA1Result, SHA224_256ResultN up to the output of the words. It can be asked for more than once.
    method Result() returns (r: int, digest: S)
      requires Valid()
      modifies this`hash, this`index, this`lengthLow, this`lengthHigh, this`computed, block
      ensures Valid() && r == corrupted && (r == SUCCESS ==> digest == Wanted() && computed)
    {
      if corrupted != 0 {
        return corrupted, hash;
      }
      if !computed {
        Finalize(0x80);
      }
      return SUCCESS, hash;
    }
  }

  lemma WordBytes(w: nat)
    requires w < M32
    ensures BigEndian(w, 4) == [w / 0x100_0000 % 256, w / 0x1_0000 % 256, w / 0x100 % 256, w % 256]
  {
    var a, b := w / 256, w / 0x1_0000;
    var c := w / 0x100_0000;
    assert a / 256 == b && b / 256 == c;
    assert BigEndian(c, 1) == [c % 256] by {
      assert BigEndian(c / 256, 0) == [];
    }
    assert BigEndian(b, 2) == [c % 256, b % 256];
    assert BigEndian(a, 3) == [c % 256, b % 256, a % 256];
  }

  // The two words hold eight times n.
  predicate Counts(high: int, low: int, n: nat) {
    0 <= high < M32 && 0 <= low < M32 && high * M32 + low == 8 * n
  }

  // The two words after one more byte, and whether they overflow.
  function NextCount(high: int, low: int): (int, int, bool) {
    var l := (low + 8) % M32;
    var h := if l < low then (high + 1) % M32 else high;
    (h, l, l < low && h == 0)
  }

  // What the macro stores for an overflow.
  function ErrorOf(overflow: bool): int {
    if overflow then 1 else 0
  }

  lemma CountUp(high: int, low: int, n: nat)
    requires Counts(high, low, n)
    ensures n < TOO_LONG
    ensures var (h, l, overflow) := NextCount(high, low);
            if overflow then n + 1 == TOO_LONG else Counts(h, l, n + 1) && n + 1 < TOO_LONG
  {
    if low + 8 >= M32 {
      assert low == M32 - 8;
    }
  }

  // The byte that makes the count overflow is the one that makes the message 2^61 bytes long. The error it stores is
  // the one for a null pointer, not the one for too long input.
  lemma OverflowIsReportedAsNull(high: int, low: int, n: nat)
    requires Counts(high, low, n)
    ensures NextCount(high, low).2 <==> n + 1 == TOO_LONG
    ensures ErrorOf(NextCount(high, low).2) != SUCCESS <==> n + 1 == TOO_LONG
    ensures ErrorOf(true) == NULL != INPUT_TOO_LONG
  {
    CountUp(high, low, n);
  }

  // The counters at that byte.
  lemma OverflowWitness()
    ensures Counts(0xffff_ffff, 0xffff_fff8, TOO_LONG - 1) && NextCount(0xffff_ffff, 0xffff_fff8) == (0, 0, true)
  {
  }

  lemma Snoc(m: seq<byte>, s: seq<byte>, b: byte)
    ensures m + s + [b] == m + (s + [b])
  {
  }

  lemma ByteBehind<S>(f: (S, seq<byte>) -> S, h: S, m: seq<byte>, b: byte)
    ensures |Tail(m)| < 63 ==> |m + [b]| % 64 == |Tail(m)| + 1 && Tail(m + [b]) == Tail(m) + [b]
    ensures |Tail(m)| < 63 ==> Blocks(f, h, m + [b]) == Blocks(f, h, m)
    ensures |Tail(m)| == 63 ==> |m + [b]| % 64 == 0 && Tail(m + [b]) == []
    ensures |Tail(m)| == 63 ==> Blocks(f, h, m + [b]) == f(Blocks(f, h, m), Tail(m) + [b])
  {
    TailOfMore(m, [b]);
    BlocksOfMore(f, h, m, [b]);
    ModOfSum(|m|, 1);
    if |Tail(m)| == 63 {
      OneBlock(f, Blocks(f, h, m), Tail(m) + [b]);
    }
  }
}
