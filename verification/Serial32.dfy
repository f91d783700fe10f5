// 32-bit serial numbers (lib/pdu.c): the comparison of section 3.2 of RFC 1982, and task tags.
module Serial32 {

  const M := 0x1_0000_0000
  const H := 0x8000_0000

  type uint32 = x: int | 0 <= x < 0x1_0000_0000

  function Wrap(x: int): uint32 {
    x % M
  }

  function Compare(s1: uint32, s2: uint32): int {
    if s1 == s2 then 0
    else if s1 < s2 && s2 - s1 < H then -1
    else if s1 > s2 && s1 - s2 < H then 1
    else if s1 > s2 && s1 - s2 > H then -1
    else if s1 < s2 && s2 - s1 > H then 1
    else -1
  }

  function Sign(x: int): int {
    if x < 0 then -1 else if x == 0 then 0 else 1
  }

  // On the wrapped images of unbounded counters the comparison is right exactly while
  // their distance stays within the half range.
  lemma CompareRefinesCounters(a: int, b: int)
    requires -M < a - b < M
    ensures Compare(Wrap(a), Wrap(b)) == Sign(a - b) <==> -H <= a - b < H
  {
    var d := a / M - b / M;
    assert a - b == d * M + (Wrap(a) - Wrap(b));
    assert -1 <= d <= 1;
  }

  // How many numbers lie from s up to, but not including, n.
  function Age(n: uint32, s: uint32): uint32 {
    Wrap(n - s)
  }

  lemma CompareByAge(n: uint32, s1: uint32, s2: uint32)
    requires Age(n, s1) < H && Age(n, s2) < H
    ensures Compare(s1, s2) == Sign(Age(n, s2) - Age(n, s1))
  {
  }

  lemma AgeShifts(n: uint32, s: uint32, dn: int, ds: int)
    requires 0 <= Age(n, s) + dn - ds < M
    ensures Age(Wrap(n + dn), Wrap(s + ds)) == Age(n, s) + dn - ds
  {
    var x := n + dn - (s + ds);
    var q := (n + dn) / M - (s + ds) / M;
    assert Wrap(n + dn) - Wrap(s + ds) == x - q * M;
    assert Wrap(n - s) == n - s || Wrap(n - s) == n - s + M;
    var y := Age(n, s) + dn - ds;
    var c := if Wrap(n - s) == n - s then 0 else 1;
    assert y == x + c * M;
    WrapUnique(x - q * M, y, q + c);
  }

  lemma WrapUnique(x: int, y: int, q: int)
    requires 0 <= y < M && y == x + q * M
    ensures Wrap(x) == y
  {
    assert x == -q * M + y;
  }

  // ----- initiator task tags

  // The tag counter skips the reserved value 0xffffffff.
  function NextTag(itt: uint32): (r: uint32) {
    var n := Wrap(itt + 1);
    if n == 0xffff_ffff then 0 else n
  }

  function TagAfter(itt: uint32, n: nat): uint32 {
    if n == 0 then itt else NextTag(TagAfter(itt, n - 1))
  }

  // Tags run through all values but the reserved one: two of 2^32 - 1 successive tags never coincide.
  lemma {:induction false} TagsCycle(itt: uint32, n: nat)
    requires itt != 0xffff_ffff
    ensures TagAfter(itt, n) == (itt + n) % 0xffff_ffff
  {
    if n > 0 {
      TagsCycle(itt, n - 1);
      ModOfSuccessor(itt + n - 1);
    }
  }

  lemma ModOfSuccessor(x: nat)
    ensures (x + 1) % 0xffff_ffff == if x % 0xffff_ffff == 0xffff_fffe then 0 else x % 0xffff_ffff + 1
  {
    var q, r := x / 0xffff_ffff, x % 0xffff_ffff;
    if r == 0xffff_fffe {
      assert x + 1 == (q + 1) * 0xffff_ffff;
    } else {
      assert x + 1 == q * 0xffff_ffff + (r + 1);
    }
  }

  lemma TagsDistinct(itt: uint32, m: nat, n: nat)
    requires itt != 0xffff_ffff && m < n < m + 0xffff_ffff
    ensures TagAfter(itt, m) != TagAfter(itt, n) && TagAfter(itt, n) != 0xffff_ffff
  {
    TagsCycle(itt, m);
    TagsCycle(itt, n);
  }
}
