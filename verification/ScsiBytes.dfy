// Bits, words and guarded reads of SCSI data, as lib/scsi-lowlevel.c handles them.
module ScsiBytes {
  import opened Bytes

  // task_get_uint8 and its wider relatives: what lies outside the data reads as 0.
  function Get8(d: seq<byte>, i: nat): byte {
    if i + 1 <= |d| then d[i] else 0
  }

  function Get16(d: seq<byte>, i: nat): (v: int)
    ensures 0 <= v < 0x1_0000
  {
    if i + 2 <= |d| then d[i] as int * 0x100 + d[i + 1] as int else 0
  }

  function Get32(d: seq<byte>, i: nat): (v: int)
    ensures 0 <= v < 0x1_0000_0000
  {
    if i + 4 <= |d| then
      d[i] as int * 0x100_0000 + d[i + 1] as int * 0x1_0000 + d[i + 2] as int * 0x100 + d[i + 3] as int
    else 0
  }

  // The bytes that scsi_set_uint16 and scsi_set_uint32 store; a wider value loses its high bits.
  function B0(v: int): byte { v % 0x100 }
  function B1(v: int): byte { v / 0x100 % 0x100 }
  function B2(v: int): byte { v / 0x1_0000 % 0x100 }
  function B3(v: int): byte { v / 0x100_0000 % 0x100 }

  lemma WordOfBytes(v: int)
    ensures B1(v) as int * 0x100 + B0(v) as int == v % 0x1_0000
  {
    var q, r := v / 0x100, v % 0x100;
    var q1, r1 := q / 0x100, q % 0x100;
    assert v == q1 * 0x1_0000 + (r1 * 0x100 + r);
  }

  lemma LongOfBytes(v: int)
    ensures B3(v) as int * 0x100_0000 + B2(v) as int * 0x1_0000 + B1(v) as int * 0x100 + B0(v) as int ==
              v % 0x1_0000_0000
  {
    var hi := v / 0x1_0000;
    WordOfBytes(v);
    WordOfBytes(hi);
    HighByte(v);
    Halves(v);
  }

  lemma HighByte(v: int)
    ensures v / 0x1_0000 / 0x100 == v / 0x100_0000
  {
  }

  lemma Halves(v: int)
    ensures v / 0x1_0000 % 0x1_0000 * 0x1_0000 + v % 0x1_0000 == v % 0x1_0000_0000
  {
    var hi := v / 0x1_0000;
    assert v == hi / 0x1_0000 * 0x1_0000_0000 + (hi % 0x1_0000 * 0x1_0000 + v % 0x1_0000);
  }

  // s stands in d at pos.
  ghost predicate Embeds(d: seq<byte>, pos: nat, s: seq<byte>) {
    pos + |s| <= |d| && forall k :: 0 <= k < |s| ==> d[pos + k] == s[k]
  }

  lemma EmbeddedReads(d: seq<byte>, pos: nat, s: seq<byte>, k: nat)
    requires Embeds(d, pos, s)
    ensures k + 1 <= |s| ==> Get8(d, pos + k) == s[k]
    ensures k + 2 <= |s| ==> Get16(d, pos + k) == Get16(s, k)
    ensures k + 4 <= |s| ==> Get32(d, pos + k) == Get32(s, k)
  {
    if k + 1 <= |s| {
      assert d[pos + k] == s[k];
    }
    if k + 2 <= |s| {
      assert d[pos + (k + 1)] == s[k + 1];
    }
    if k + 4 <= |s| {
      assert d[pos + (k + 2)] == s[k + 2] && d[pos + (k + 3)] == s[k + 3];
    }
  }

  lemma GetsWord(s: seq<byte>, k: nat, v: int)
    requires k + 2 <= |s| && s[k] == B1(v) && s[k + 1] == B0(v)
    ensures Get16(s, k) == v % 0x1_0000
  {
    WordOfBytes(v);
  }

  lemma GetsLong(s: seq<byte>, k: nat, v: int)
    requires k + 4 <= |s| && s[k] == B3(v) && s[k + 1] == B2(v) && s[k + 2] == B1(v) && s[k + 3] == B0(v)
    ensures Get32(s, k) == v % 0x1_0000_0000
  {
    LongOfBytes(v);
  }

  // ----- bits

  // Bitwise or of two natural numbers.
  function Or(x: nat, y: nat): (z: nat)
    decreases x + y
  {
    if x == 0 then y
    else if y == 0 then x
    else 2 * Or(x / 2, y / 2) + (if x % 2 == 1 || y % 2 == 1 then 1 else 0)
  }

  // Bits that are not there yet are added.
  lemma {:induction false} OrAdds(x: nat, k: nat, y: nat, p: nat)
    requires IsPower(p) && x == k * p && y < p
    ensures Or(x, y) == x + y
    decreases p
  {
    if x != 0 && y != 0 {
      var q := p / 2;
      assert x == 2 * (k * q);
      OrAdds(x / 2, k, y / 2, q);
    }
  }

  // The same for a single bit that is not set, wherever it lies.
  lemma {:induction false} OrAddsBit(x: nat, k: nat, r: nat, p: nat)
    requires IsPower(p) && x == 2 * k * p + r && r < p
    ensures Or(x, p) == x + p
    decreases p
  {
    if p == 1 {
      assert x % 2 == 0 && Or(x / 2, 0) == x / 2;
    } else if x != 0 {
      var q := p / 2;
      assert x == 2 * (2 * k * q) + r;
      OrAddsBit(x / 2, k, r / 2, q);
    }
  }

  predicate IsPower(p: nat) {
    p == 1 || (p > 1 && p % 2 == 0 && IsPower(p / 2))
  }

  function Flag(b: bool, mask: int): int {
    if b then mask else 0
  }

  // !!(x & mask) for the eight masks of a byte
  predicate Bit7(x: byte) { x / 128 % 2 == 1 }
  predicate Bit6(x: byte) { x / 64 % 2 == 1 }
  predicate Bit5(x: byte) { x / 32 % 2 == 1 }
  predicate Bit4(x: byte) { x / 16 % 2 == 1 }
  predicate Bit3(x: byte) { x / 8 % 2 == 1 }
  predicate Bit2(x: byte) { x / 4 % 2 == 1 }
  predicate Bit1(x: byte) { x / 2 % 2 == 1 }
  predicate Bit0(x: byte) { x % 2 == 1 }

  function FlagByte(b7: bool, b6: bool, b5: bool, b4: bool, b3: bool, b2: bool, b1: bool, b0: bool): byte {
    Flag(b7, 128) + Flag(b6, 64) + Flag(b5, 32) + Flag(b4, 16) + Flag(b3, 8) + Flag(b2, 4) + Flag(b1, 2) + Flag(b0, 1)
  }

  lemma BitsOfFlags(b7: bool, b6: bool, b5: bool, b4: bool, b3: bool, b2: bool, b1: bool, b0: bool)
    ensures var x := FlagByte(b7, b6, b5, b4, b3, b2, b1, b0);
            && Bit7(x) == b7 && Bit6(x) == b6 && Bit5(x) == b5 && Bit4(x) == b4
            && Bit3(x) == b3 && Bit2(x) == b2 && Bit1(x) == b1 && Bit0(x) == b0
  {
    var x := FlagByte(b7, b6, b5, b4, b3, b2, b1, b0);
    var high := Flag(b7, 8) + Flag(b6, 4) + Flag(b5, 2) + Flag(b4, 1);
    var low := Flag(b3, 8) + Flag(b2, 4) + Flag(b1, 2) + Flag(b0, 1);
    Nibbles(x, high, low);
    NibbleBits(high, b7, b6, b5, b4);
    NibbleBits(low, b3, b2, b1, b0);
  }

  lemma Nibbles(x: byte, high: nat, low: nat)
    requires x == 16 * high + low && low < 16
    ensures x / 16 == high && x / 32 == high / 2 && x / 64 == high / 4 && x / 128 == high / 8
    ensures x % 2 == low % 2 && x / 2 % 2 == low / 2 % 2 && x / 4 % 2 == low / 4 % 2 && x / 8 % 2 == low / 8 % 2
  {
    HighPart(x, high, low);
    LowPart(x, high, low);
  }

  lemma HighPart(x: byte, high: nat, low: nat)
    requires x == 16 * high + low && low < 16
    ensures x / 16 == high && x / 32 == high / 2 && x / 64 == high / 4 && x / 128 == high / 8
  {
    assert x / 16 == high;
    Twice(x, 16, 2);
    Twice(x, 16, 4);
    Twice(x, 16, 8);
  }

  lemma Twice(x: byte, m: nat, n: nat)
    requires m == 16 && (n == 2 || n == 4 || n == 8)
    ensures n == 2 ==> x / 32 == x / 16 / 2
    ensures n == 4 ==> x / 64 == x / 16 / 4
    ensures n == 8 ==> x / 128 == x / 16 / 8
  {
  }

  lemma LowPart(x: byte, high: nat, low: nat)
    requires x == 16 * high + low && low < 16
    ensures x % 2 == low % 2 && x / 2 % 2 == low / 2 % 2 && x / 4 % 2 == low / 4 % 2 && x / 8 % 2 == low / 8 % 2
  {
    assert x / 2 == 8 * high + low / 2;
    assert x / 4 == 4 * high + low / 4;
    assert x / 8 == 2 * high + low / 8;
    Even(4 * high, low / 2);
    Even(2 * high, low / 4);
    Even(high, low / 8);
    Even(8 * high, low);
  }

  lemma Even(k: nat, n: nat)
    ensures (2 * k + n) % 2 == n % 2
  {
  }

  lemma NibbleBits(n: nat, b3: bool, b2: bool, b1: bool, b0: bool)
    requires n == Flag(b3, 8) + Flag(b2, 4) + Flag(b1, 2) + Flag(b0, 1)
    ensures (n / 8 % 2 == 1) == b3 && (n / 4 % 2 == 1) == b2 && (n / 2 % 2 == 1) == b1 && (n % 2 == 1) == b0
  {
  }
}
