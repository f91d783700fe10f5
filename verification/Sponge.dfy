// The sponge of lib/sha3.c: absorbing byte by byte, padding, and squeezing. The permutation on the 200 state bytes is a
// parameter here; Keccak.dfy is about the permutation itself.
module Sponge {
  import opened Octets

  const STATE := 200

  type Permutation = seq<byte> -> seq<byte>

  ghost predicate KeepsSize(p: Permutation) {
    forall s: seq<byte> :: |s| == STATE ==> |p(s)| == STATE
  }

  // A block added to the first bytes of the state.
  function XorInto(s: seq<byte>, b: seq<byte>): (r: seq<byte>)
    requires |b| <= |s|
    ensures |r| == |s|
  {
    seq(|s|, i requires 0 <= i < |s| => if i < |b| then s[i] ^ b[i] else s[i])
  }

  // ----- the sponge of section 4 of FIPS 202, on whole bytes

  // The state after all full blocks of m, and what is left of m.
  ghost function Absorb(p: Permutation, rate: nat, s: seq<byte>, m: seq<byte>): (r: seq<byte>)
    requires 0 < rate <= STATE == |s| && KeepsSize(p)
    ensures |r| == STATE
    decreases |m|
  {
    if |m| < rate then s else Absorb(p, rate, p(XorInto(s, m[..rate])), m[rate..])
  }

  function Rest(rate: nat, m: seq<byte>): (r: seq<byte>)
    requires 0 < rate
    ensures |r| < rate
    decreases |m|
  {
    if |m| < rate then m else Rest(rate, m[rate..])
  }

  // Domain bits and the first one bit in one byte, then zeros, the last bit at the end of the block.
  function Pad(n: nat, domain: byte): (b: seq<byte>)
    ensures |b| == n
  {
    seq(n, i requires 0 <= i < n => (if i == 0 then domain else 0) ^ (if i == n - 1 then 0x80 else 0))
  }

  function Padded(rate: nat, m: seq<byte>, domain: byte): seq<byte>
    requires 0 < rate
  {
    m + Pad(rate - |Rest(rate, m)|, domain)
  }

  // The state from which output is taken.
  ghost function Absorbed(p: Permutation, rate: nat, m: seq<byte>, domain: byte): (s: seq<byte>)
    requires 0 < rate <= STATE && KeepsSize(p)
    ensures |s| == STATE
  {
    Absorb(p, rate, Zeros(STATE), Padded(rate, m, domain))
  }

  // n bytes of output: block after block, with the permutation between them.
  ghost function Squeeze(p: Permutation, rate: nat, s: seq<byte>, n: nat): (out: seq<byte>)
    requires 0 < rate <= STATE == |s| && KeepsSize(p)
    ensures |out| == n
    decreases n
  {
    if n <= rate then s[..n] else s[..rate] + Squeeze(p, rate, p(s), n - rate)
  }

  // ----- one byte more

  lemma {:induction false} AbsorbByte(p: Permutation, rate: nat, s: seq<byte>, m: seq<byte>, b: byte)
    requires 0 < rate <= STATE == |s| && KeepsSize(p)
    ensures |Rest(rate, m)| + 1 < rate ==>
              Absorb(p, rate, s, m + [b]) == Absorb(p, rate, s, m) && Rest(rate, m + [b]) == Rest(rate, m) + [b]
    ensures |Rest(rate, m)| + 1 == rate ==>
              && Absorb(p, rate, s, m + [b]) == p(XorInto(Absorb(p, rate, s, m), Rest(rate, m) + [b]))
              && Rest(rate, m + [b]) == []
    decreases |m|
  {
    if |m| >= rate {
      assert (m + [b])[..rate] == m[..rate] && (m + [b])[rate..] == m[rate..] + [b];
      AbsorbByte(p, rate, p(XorInto(s, m[..rate])), m[rate..], b);
    } else if |m| + 1 == rate {
      assert (m + [b])[..rate] == m + [b] && (m + [b])[rate..] == [];
    }
  }

  lemma {:induction false} AbsorbLast(p: Permutation, rate: nat, s: seq<byte>, m: seq<byte>, b: seq<byte>)
    requires 0 < rate <= STATE == |s| && KeepsSize(p) && |Rest(rate, m)| + |b| == rate
    ensures Absorb(p, rate, s, m + b) == p(XorInto(Absorb(p, rate, s, m), Rest(rate, m) + b))
    ensures Rest(rate, m + b) == []
    decreases |m|
  {
    if |m| >= rate {
      assert (m + b)[..rate] == m[..rate] && (m + b)[rate..] == m[rate..] + b;
      AbsorbLast(p, rate, p(XorInto(s, m[..rate])), m[rate..], b);
    } else {
      assert (m + b)[..rate] == m + b && (m + b)[rate..] == [];
    }
  }

  // The padded message fills whole blocks.
  lemma PaddedFillsBlocks(p: Permutation, rate: nat, m: seq<byte>, domain: byte)
    requires 0 < rate <= STATE && KeepsSize(p)
    ensures Rest(rate, Padded(rate, m, domain)) == []
    ensures Absorbed(p, rate, m, domain) ==
            p(XorInto(Absorb(p, rate, Zeros(STATE), m), Rest(rate, m) + Pad(rate - |Rest(rate, m)|, domain)))
  {
    AbsorbLast(p, rate, Zeros(STATE), m, Pad(rate - |Rest(rate, m)|, domain));
  }

  // ----- adding bytes in place

  lemma XorNone(s: seq<byte>)
    ensures XorInto(s, []) == s
  {
  }

  lemma XorOneMore(s: seq<byte>, b: seq<byte>, x: byte)
    requires |b| < |s|
    ensures XorInto(s, b)[|b| := XorInto(s, b)[|b|] ^ x] == XorInto(s, b + [x])
  {
  }

  lemma XorZero(x: byte)
    ensures x ^ 0 == x
  {
  }

  lemma XorTwice(x: byte, d: byte)
    ensures (x ^ d) ^ 0x80 == x ^ (d ^ 0x80)
  {
  }

  // The two bytes that the padding changes, also when they are the same byte.
  lemma PadInPlace(s: seq<byte>, t: seq<byte>, u: seq<byte>, v: seq<byte>, b: seq<byte>, rate: nat, domain: byte)
    requires |b| < rate <= |s| && t == XorInto(s, b)
    requires u == t[|b| := t[|b|] ^ domain] && v == u[rate - 1 := u[rate - 1] ^ 0x80]
    ensures v == XorInto(s, b + Pad(rate - |b|, domain))
  {
    var w := b + Pad(rate - |b|, domain);
    forall i | 0 <= i < |s| ensures v[i] == XorInto(s, w)[i] {
      if |b| <= i < rate {
        assert w[i] == Pad(rate - |b|, domain)[i - |b|];
        PadByte(s[i], domain, i == |b|, i == rate - 1);
      }
    }
  }

  lemma PadByte(x: byte, domain: byte, first: bool, last: bool)
    ensures x ^ ((if first then domain else 0) ^ (if last then 0x80 else 0)) ==
            var y := if first then x ^ domain else x; if last then y ^ 0x80 else y
  {
    XorZero(x);
    XorZero(domain);
    XorTwice(x, domain);
    assert 0 ^ 0x80 == 0x80 as byte;
    assert 0 ^ 0 == 0 as byte;
  }

  // ----- the source's context

  class Context {
    const keccakf: Permutation
    const st: array<byte>
    const mdlen: nat
    const rsiz: nat
    var pt: nat

    // What was absorbed, what it was squeezed from, and how much was squeezed.
    ghost var message: seq<byte>
    ghost var origin: seq<byte>
    ghost var squeezed: nat

    // sha3_init
    constructor (keccakf: Permutation, mdlen: nat)
      requires KeepsSize(keccakf) && 0 < mdlen && mdlen <= 200 - 2 * mdlen
      ensures Absorbing() && message == [] && this.keccakf == keccakf && this.mdlen == mdlen && fresh(st)
      ensures rsiz == STATE - 2 * mdlen
    {
      this.keccakf, this.mdlen := keccakf, mdlen;
      st := new byte[200](_ => 0);
      rsiz, pt := 200 - 2 * mdlen, 0;
      message, origin, squeezed := [], [], 0;
      new;
      assert st[..] == Zeros(STATE);
      XorNone(Zeros(STATE));
    }

    ghost predicate Shape() {
      KeepsSize(keccakf) && st.Length == STATE && 0 < mdlen <= rsiz < STATE
    }

    // The state is the sponge state with the incomplete block already added.
    ghost predicate Absorbing()
      reads this, st
    {
      && Shape() && pt == |Rest(rsiz, message)|
      && st[..] == XorInto(Absorb(keccakf, rsiz, Zeros(STATE), message), Rest(rsiz, message))
    }

    method Permute()
      requires Shape()
      modifies st
      ensures st[..] == keccakf(old(st[..]))
    {
      var s := keccakf(st[..]);
      assert |s| == STATE;
      forall i | 0 <= i < STATE {
        st[i] := s[i];
      }
    }

    // sha3_update
    method Update(data: array<byte>, len: nat)
      requires Absorbing() && len <= data.Length && data != st
      modifies this`pt, this`message, st
      ensures Absorbing() && message == old(message) + data[..len]
    {
      ghost var m := message;
      assert m + data[..0] == m;
      var j := pt;
      for i := 0 to len
        invariant message == m + data[..i] && Shape() && j == |Rest(rsiz, message)|
        invariant st[..] == XorInto(Absorb(keccakf, rsiz, Zeros(STATE), message), Rest(rsiz, message))
        invariant data[..] == old(data[..])
      {
        j := AbsorbOne(j, data[i]);
        assert data[..i + 1] == data[..i] + [data[i]];
        assert m + data[..i] + [data[i]] == m + data[..i + 1];
      }
      pt := j;
    }

    method AbsorbOne(j: nat, b: byte) returns (j': nat)
      requires Shape() && j == |Rest(rsiz, message)|
      requires st[..] == XorInto(Absorb(keccakf, rsiz, Zeros(STATE), message), Rest(rsiz, message))
      modifies this`message, st
      ensures message == old(message) + [b] && j' == |Rest(rsiz, message)|
      ensures st[..] == XorInto(Absorb(keccakf, rsiz, Zeros(STATE), message), Rest(rsiz, message))
    {
      ghost var a, r := Absorb(keccakf, rsiz, Zeros(STATE), message), Rest(rsiz, message);
      AbsorbByte(keccakf, rsiz, Zeros(STATE), message, b);
      XorOneMore(a, r, b);
      st[j] := st[j] ^ b;
      assert st[..] == XorInto(a, r + [b]);
      j' := j + 1;
      message := message + [b];
      if j' >= rsiz {
        Permute();
        j' := 0;
        XorNone(st[..]);
      }
    }

    // The padding: sha3_final with 0x06, shake_xof with 0x1f.
    method PadAndPermute(domain: byte)
      requires Absorbing()
      modifies st
      ensures st[..] == Absorbed(keccakf, rsiz, message, domain)
    {
      ghost var a, r, t := Absorb(keccakf, rsiz, Zeros(STATE), message), Rest(rsiz, message), st[..];
      st[pt] := st[pt] ^ domain;
      ghost var u := st[..];
      st[rsiz - 1] := st[rsiz - 1] ^ 0x80;
      PadInPlace(a, t, u, st[..], r, rsiz, domain);
      PaddedFillsBlocks(keccakf, rsiz, message, domain);
      Permute();
    }

    // sha3_final
    method Final() returns (md: seq<byte>)
      requires Absorbing()
      modifies st
      ensures md == Squeeze(keccakf, rsiz, Absorbed(keccakf, rsiz, message, 0x06), mdlen)
    {
      PadAndPermute(0x06);
      md := st[..mdlen];
    }

    // Ready for output: `squeezed` bytes of it have been taken.
    ghost predicate Squeezing()
      reads this, st
    {
      && Shape() && |origin| == STATE
      && st[..] == After(keccakf, rsiz, origin, squeezed) && pt == Position(rsiz, squeezed)
    }

    // shake_xof
    method StartOutput()
      requires Absorbing()
      modifies this`pt, this`origin, this`squeezed, st
      ensures Squeezing() && squeezed == 0 && origin == Absorbed(keccakf, rsiz, message, 0x1f)
    {
      PadAndPermute(0x1f);
      pt := 0;
      origin, squeezed := st[..], 0;
    }

    // shake_out
    method Output(out: array<byte>, len: nat)
      requires Squeezing() && len <= out.Length && out != st
      modifies this`pt, this`squeezed, st, out
      ensures Squeezing() && squeezed == old(squeezed) + len
      ensures Squeeze(keccakf, rsiz, origin, old(squeezed)) + out[..len] == Squeeze(keccakf, rsiz, origin, squeezed)
    {
      var j := pt;
      ghost var before := Squeeze(keccakf, rsiz, origin, squeezed);
      assert before + out[..0] == before;
      for i := 0 to len
        invariant Shape() && squeezed == old(squeezed) + i
        invariant st[..] == After(keccakf, rsiz, origin, squeezed) && j == Position(rsiz, squeezed)
        invariant before + out[..i] == Squeeze(keccakf, rsiz, origin, squeezed)
      {
        NextByte(keccakf, rsiz, origin, squeezed);
        if j >= rsiz {
          Permute();
          j := 0;
        }
        out[i] := st[j];
        assert out[..i + 1] == out[..i] + [st[j]];
        assert before + out[..i + 1] == before + out[..i] + [st[j]];
        j := j + 1;
        squeezed := squeezed + 1;
      }
      pt := j;
    }
  }

  function Sum(lens: seq<nat>): nat {
    if lens == [] then 0 else Sum(lens[..|lens| - 1]) + lens[|lens| - 1]
  }

  // Output taken in pieces of any length is output taken at once.
  method TakeOutput(c: Context, lens: seq<nat>) returns (out: seq<byte>)
    requires c.Squeezing() && c.squeezed == 0
    modifies c`pt, c`squeezed, c.st
    ensures c.Squeezing() && out == Squeeze(c.keccakf, c.rsiz, c.origin, Sum(lens))
  {
    out := [];
    for i := 0 to |lens|
      invariant c.Squeezing() && c.squeezed == Sum(lens[..i])
      invariant out == Squeeze(c.keccakf, c.rsiz, c.origin, c.squeezed)
    {
      var piece := new byte[lens[i]];
      c.Output(piece, lens[i]);
      assert lens[..i + 1][..i] == lens[..i] && piece[..lens[i]] == piece[..];
      out := out + piece[..];
    }
    assert lens[..|lens|] == lens;
  }

  // The state, and the position in it, when n bytes have been taken. The permutation is put off until it is needed.
  ghost function After(p: Permutation, rate: nat, s: seq<byte>, n: nat): (r: seq<byte>)
    requires 0 < rate <= STATE == |s| && KeepsSize(p)
    ensures |r| == STATE
    decreases n
  {
    if n <= rate then s else After(p, rate, p(s), n - rate)
  }

  function Position(rate: nat, n: nat): (i: nat)
    requires 0 < rate
    ensures i <= rate
    decreases n
  {
    if n <= rate then n else Position(rate, n - rate)
  }

  lemma {:induction false} NextByte(p: Permutation, rate: nat, s: seq<byte>, n: nat)
    requires 0 < rate <= STATE == |s| && KeepsSize(p)
    ensures var a, i := After(p, rate, s, n), Position(rate, n);
            var a', i' := if i == rate then p(a) else a, if i == rate then 0 else i;
            && After(p, rate, s, n + 1) == a' && Position(rate, n + 1) == i' + 1
            && Squeeze(p, rate, s, n + 1) == Squeeze(p, rate, s, n) + [a'[i']]
    decreases n
  {
    if n > rate {
      NextByte(p, rate, p(s), n - rate);
      assert s[..rate] + Squeeze(p, rate, p(s), n - rate + 1)
          == s[..rate] + Squeeze(p, rate, p(s), n - rate) + Squeeze(p, rate, p(s), n - rate + 1)[n - rate..];
    } else if n == rate {
      assert Squeeze(p, rate, p(s), 1) == p(s)[..1] == [p(s)[0]];
    } else {
      assert s[..n + 1] == s[..n] + [s[n]];
    }
  }
}
