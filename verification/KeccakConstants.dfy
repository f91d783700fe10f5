// The round constants of lib/sha3.c are the ones that the shift register of section 3.2.5 of FIPS 202 gives.
module KeccakConstants {
  import opened Keccak

  // The register of algorithm 5, bit i of the byte for R[i]; the output is R[0].
  function Shift(r: bv8): bv8 {
    (r << 1) ^ (if r & 0x80 == 0 then 0 else 0x71)
  }

  function Bit(r: bv8, position: bv64): bv64 {
    if r & 1 == 0 then 0 else position
  }

  function Shift7(r: bv8): bv8 {
    Shift(Shift(Shift(Shift(Shift(Shift(Shift(r)))))))
  }

  // Output j of a round is bit 2^j - 1 of its constant.
  function Constant(r: bv8): bv64 {
    var r1 := Shift(r);
    var r2 := Shift(r1);
    var r3 := Shift(r2);
    var r4 := Shift(r3);
    var r5 := Shift(r4);
    var r6 := Shift(r5);
    Bit(r, 0x1) | Bit(r1, 0x2) | Bit(r2, 0x8) | Bit(r3, 0x80) | Bit(r4, 0x8000) | Bit(r5, 0x8000_0000)
    | Bit(r6, 0x8000_0000_0000_0000)
  }

  function Constants(r: bv8, n: nat): seq<bv64>
    decreases n
  {
    if n == 0 then [] else [Constant(r)] + Constants(Shift7(r), n - 1)
  }

  // The table of the source, six to a row.
  const C0: seq<bv64> := [
    0x0000000000000001, 0x0000000000008082, 0x800000000000808a,
    0x8000000080008000, 0x000000000000808b, 0x0000000080000001]

  const C6: seq<bv64> := [
    0x8000000080008081, 0x8000000000008009, 0x000000000000008a,
    0x0000000000000088, 0x0000000080008009, 0x000000008000000a]

  const C12: seq<bv64> := [
    0x000000008000808b, 0x800000000000008b, 0x8000000000008089,
    0x8000000000008003, 0x8000000000008002, 0x8000000000000080]

  const C18: seq<bv64> := [
    0x000000000000800a, 0x800000008000000a, 0x8000000080008081,
    0x8000000000008080, 0x0000000080000001, 0x8000000080008008]

  const ROUND_CONSTANTS: seq<bv64> := C0 + C6 + C12 + C18

  lemma ConstantStep(r: bv8, c: bv64, next: bv8, n: nat)
    requires Constant(r) == c && Shift7(r) == next && n > 0
    ensures Constants(r, n) == [c] + Constants(next, n - 1)
  {
  }

  lemma Rounds0()
    ensures Constant(0x01) == 0x0000000000000001 && Shift7(0x01) == 0x80
    ensures Constant(0x80) == 0x0000000000008082 && Shift7(0x80) == 0xd8
    ensures Constant(0xd8) == 0x800000000000808a && Shift7(0xd8) == 0x1a
    ensures Constant(0x1a) == 0x8000000080008000 && Shift7(0x1a) == 0xdf
    ensures Constant(0xdf) == 0x000000000000808b && Shift7(0xdf) == 0x09
    ensures Constant(0x09) == 0x0000000080000001 && Shift7(0x09) == 0x35
  {
  }

  lemma Rounds6()
    ensures Constant(0x35) == 0x8000000080008081 && Shift7(0x35) == 0x4f
    ensures Constant(0x4f) == 0x8000000000008009 && Shift7(0x4f) == 0xca
    ensures Constant(0xca) == 0x000000000000008a && Shift7(0xca) == 0x70
    ensures Constant(0x70) == 0x0000000000000088 && Shift7(0x70) == 0x41
    ensures Constant(0x41) == 0x0000000080008009 && Shift7(0x41) == 0xec
    ensures Constant(0xec) == 0x000000008000000a && Shift7(0xec) == 0xd5
  {
  }

  lemma Rounds12()
    ensures Constant(0xd5) == 0x000000008000808b && Shift7(0xd5) == 0xcd
    ensures Constant(0xcd) == 0x800000000000008b && Shift7(0xcd) == 0x63
    ensures Constant(0x63) == 0x8000000000008089 && Shift7(0x63) == 0xab
    ensures Constant(0xab) == 0x8000000000008003 && Shift7(0xab) == 0xaa
    ensures Constant(0xaa) == 0x8000000000008002 && Shift7(0xaa) == 0x2a
    ensures Constant(0x2a) == 0x8000000000000080 && Shift7(0x2a) == 0xf2
  {
  }

  lemma Rounds18()
    ensures Constant(0xf2) == 0x000000000000800a && Shift7(0xf2) == 0xe8
    ensures Constant(0xe8) == 0x800000008000000a && Shift7(0xe8) == 0x37
    ensures Constant(0x37) == 0x8000000080008081 && Shift7(0x37) == 0x3e
    ensures Constant(0x3e) == 0x8000000000008080 && Shift7(0x3e) == 0x0b
    ensures Constant(0x0b) == 0x0000000080000001 && Shift7(0x0b) == 0x44
    ensures Constant(0x44) == 0x8000000080008008 && Shift7(0x44) == 0x8e
  {
  }

  lemma Row0(n: nat)
    requires n >= 6
    ensures Constants(0x01, n) == C0 + Constants(0x35, n - 6)
  {
    Rounds0();
    ConstantStep(0x01, 0x0000000000000001, 0x80, n);
    ConstantStep(0x80, 0x0000000000008082, 0xd8, n - 1);
    ConstantStep(0xd8, 0x800000000000808a, 0x1a, n - 2);
    ConstantStep(0x1a, 0x8000000080008000, 0xdf, n - 3);
    ConstantStep(0xdf, 0x000000000000808b, 0x09, n - 4);
    ConstantStep(0x09, 0x0000000080000001, 0x35, n - 5);
  }

  lemma Row6(n: nat)
    requires n >= 6
    ensures Constants(0x35, n) == C6 + Constants(0xd5, n - 6)
  {
    Rounds6();
    ConstantStep(0x35, 0x8000000080008081, 0x4f, n);
    ConstantStep(0x4f, 0x8000000000008009, 0xca, n - 1);
    ConstantStep(0xca, 0x000000000000008a, 0x70, n - 2);
    ConstantStep(0x70, 0x0000000000000088, 0x41, n - 3);
    ConstantStep(0x41, 0x0000000080008009, 0xec, n - 4);
    ConstantStep(0xec, 0x000000008000000a, 0xd5, n - 5);
  }

  lemma Row12(n: nat)
    requires n >= 6
    ensures Constants(0xd5, n) == C12 + Constants(0xf2, n - 6)
  {
    Rounds12();
    ConstantStep(0xd5, 0x000000008000808b, 0xcd, n);
    ConstantStep(0xcd, 0x800000000000008b, 0x63, n - 1);
    ConstantStep(0x63, 0x8000000000008089, 0xab, n - 2);
    ConstantStep(0xab, 0x8000000000008003, 0xaa, n - 3);
    ConstantStep(0xaa, 0x8000000000008002, 0x2a, n - 4);
    ConstantStep(0x2a, 0x8000000000000080, 0xf2, n - 5);
  }

  lemma Row18(n: nat)
    requires n >= 6
    ensures Constants(0xf2, n) == C18 + Constants(0x8e, n - 6)
  {
    Rounds18();
    ConstantStep(0xf2, 0x000000000000800a, 0xe8, n);
    ConstantStep(0xe8, 0x800000008000000a, 0x37, n - 1);
    ConstantStep(0x37, 0x8000000080008081, 0x3e, n - 2);
    ConstantStep(0x3e, 0x8000000000008080, 0x0b, n - 3);
    ConstantStep(0x0b, 0x0000000080000001, 0x44, n - 4);
    ConstantStep(0x44, 0x8000000080008008, 0x8e, n - 5);
  }

  lemma FirstRows(n: nat, rest: seq<bv64>)
    requires n >= 12 && rest == Constants(0xd5, n - 12)
    ensures Constants(1, n) == C0 + (C6 + rest)
  {
    Row0(n);
    Row6(n - 6);
  }

  lemma LastRows(rest: seq<bv64>)
    requires rest == Constants(0xd5, 12)
    ensures rest == C12 + C18
  {
    Row12(12);
    Row18(6);
    NoMore(C18);
  }

  lemma NoMore(row: seq<bv64>)
    ensures row + Constants(0x8e, 0) == row
  {
  }

  lemma FourRows<T>(a: seq<T>, b: seq<T>, c: seq<T>, d: seq<T>)
    ensures a + (b + (c + d)) == a + b + c + d
  {
  }

  lemma TableIsRegister()
    ensures ROUND_CONSTANTS == Constants(1, 24)
  {
    FirstRows(24, Constants(0xd5, 12));
    LastRows(Constants(0xd5, 12));
    FourRows(C0, C6, C12, C18);
  }

  lemma Word64Rotates()
    ensures RotatesByNothing(WORD64)
  {
  }

  // sha3_keccakf on its 25 words of 64 bits: all 24 rounds of FIPS 202.
  method Keccakf1600(st: array<bv64>)
    requires st.Length == 25
    modifies st
    ensures st[..] == Rounds(WORD64, old(st[..]), Constants(1, 24))
  {
    Word64Rotates();
    TableIsRegister();
    Keccakf(WORD64, st, ROUND_CONSTANTS);
  }
}
