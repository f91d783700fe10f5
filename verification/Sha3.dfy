// The two halves of lib/sha3.c together: the sponge of Sponge.dfy over the permutation of Keccak.dfy. The 200 state
// bytes are also 25 words of 64 bits, low byte first.
module Sha3 {
  import opened Octets
  import opened Sponge
  import Keccak
  import KeccakConstants

  // ----- two views of the state

  // Eight bytes as a word, and back. What follows needs only that the two undo each other.
  datatype View<!L> = View(join: seq<byte> -> L, split: L -> seq<byte>)

  predicate SplitsToEight<L>(v: View<L>, w: L) { |v.split(w)| == 8 }
  predicate JoinsBack<L(==)>(v: View<L>, w: L) { v.join(v.split(w)) == w }
  predicate SplitsBack<L>(v: View<L>, b: seq<byte>) { |b| == 8 ==> v.split(v.join(b)) == b }

  ghost predicate Right<L(!new)>(v: View<L>) {
    && (forall w {:trigger SplitsToEight(v, w)} :: SplitsToEight(v, w))
    && (forall w {:trigger JoinsBack(v, w)} :: JoinsBack(v, w))
    && (forall b {:trigger SplitsBack(v, b)} :: SplitsBack(v, b))
  }

  function Words<L>(v: View<L>, s: seq<byte>): (st: seq<L>)
    requires |s| == STATE
    ensures |st| == 25
  {
    seq(25, k requires 0 <= k < 25 => v.join(s[8 * k..8 * k + 8]))
  }

  function ByteOf<L>(v: View<L>, w: L, j: nat): byte {
    if j < |v.split(w)| then v.split(w)[j] else 0
  }

  function Bytes<L>(v: View<L>, st: seq<L>): (s: seq<byte>)
    requires |st| == 25
    ensures |s| == STATE
  {
    seq(STATE, i requires 0 <= i < STATE => ByteOf(v, st[i / 8], i % 8))
  }

  // The two views are of the same state.
  lemma WordsOfBytes<L(!new)>(v: View<L>, st: seq<L>)
    requires Right(v) && |st| == 25
    ensures Words(v, Bytes(v, st)) == st
  {
    forall k | 0 <= k < 25 ensures Words(v, Bytes(v, st))[k] == st[k] {
      assert SplitsToEight(v, st[k]) && JoinsBack(v, st[k]);
      assert Bytes(v, st)[8 * k..8 * k + 8] == v.split(st[k]);
    }
  }

  lemma BytesOfWords<L(!new)>(v: View<L>, s: seq<byte>)
    requires Right(v) && |s| == STATE
    ensures Bytes(v, Words(v, s)) == s
  {
    forall i | 0 <= i < STATE ensures Bytes(v, Words(v, s))[i] == s[i] {
      var k := i / 8;
      assert SplitsBack(v, s[8 * k..8 * k + 8]);
    }
  }

  method LoadWords<L>(v: View<L>, st: array<byte>, q: array<L>)
    requires st.Length == STATE && q.Length == 25 && q != st as object
    modifies q
    ensures q[..] == Words(v, st[..])
  {
    ghost var s := st[..];
    for k := 0 to 25
      invariant st[..] == s && forall i :: 0 <= i < k ==> q[i] == v.join(s[8 * i..8 * i + 8])
    {
      assert st[8 * k..8 * k + 8] == s[8 * k..8 * k + 8];
      q[k] := v.join(st[8 * k..8 * k + 8]);
    }
  }

  method StoreBytes<L>(v: View<L>, q: array<L>, st: array<byte>)
    requires st.Length == STATE && q.Length == 25 && q != st as object
    modifies st
    ensures st[..] == Bytes(v, q[..])
  {
    ghost var r := q[..];
    for i := 0 to STATE
      invariant q[..] == r && forall j :: 0 <= j < i ==> st[j] == ByteOf(v, r[j / 8], j % 8)
    {
      st[i] := ByteOf(v, q[i / 8], i % 8);
    }
  }

  // ----- words of 64 bits, low byte first

  type lane = bv64

  function Lane(b0: byte, b1: byte, b2: byte, b3: byte, b4: byte, b5: byte, b6: byte, b7: byte): lane {
    (b0 as lane) | ((b1 as lane) << 8) | ((b2 as lane) << 16) | ((b3 as lane) << 24)
    | ((b4 as lane) << 32) | ((b5 as lane) << 40) | ((b6 as lane) << 48) | ((b7 as lane) << 56)
  }

  function Join(b: seq<byte>): lane {
    if |b| == 8 then Lane(b[0], b[1], b[2], b[3], b[4], b[5], b[6], b[7]) else 0
  }

  function Low(w: lane): byte {
    LowFits(w);
    (w & 0xff) as byte
  }

  lemma LowFits(w: lane)
    ensures w & 0xff < 0x100
  {
  }

  function Split(w: lane): seq<byte> {
    [Low(w), Low(w >> 8), Low(w >> 16), Low(w >> 24), Low(w >> 32), Low(w >> 40), Low(w >> 48), Low(w >> 56)]
  }

  lemma JoinOfSplit(w: lane)
    ensures Join(Split(w)) == w
  {
  }

  lemma SplitOfEight(b0: byte, b1: byte, b2: byte, b3: byte, b4: byte, b5: byte, b6: byte, b7: byte)
    ensures Split(Lane(b0, b1, b2, b3, b4, b5, b6, b7)) == [b0, b1, b2, b3, b4, b5, b6, b7]
  {
  }

  lemma SplitOfJoin(b: seq<byte>, c: seq<byte>)
    requires |b| == 8 && c == [b[0], b[1], b[2], b[3], b[4], b[5], b[6], b[7]]
    ensures Split(Join(b)) == c
  {
    SplitOfEight(b[0], b[1], b[2], b[3], b[4], b[5], b[6], b[7]);
  }

  const LANES: View<lane> := View(b => Join(b), w => Split(w))

  lemma LanesRight()
    ensures Right(LANES)
  {
    forall w ensures JoinsBack(LANES, w) { JoinOfSplit(w); }
    forall b ensures SplitsBack(LANES, b) {
      if |b| == 8 {
        SplitOfJoin(b, [b[0], b[1], b[2], b[3], b[4], b[5], b[6], b[7]]);
      }
    }
  }

  // ----- the permutation on bytes

  // Section 3.3 of FIPS 202 for 1600 bits: 24 rounds.
  function Keccak1600(s: seq<byte>): (r: seq<byte>)
    ensures |s| == STATE ==> |r| == STATE
  {
    if |s| == STATE then
      Bytes(LANES, Keccak.Rounds(Keccak.WORD64, Words(LANES, s), KeccakConstants.Constants(1, 24)))
    else s
  }

  // On every state the byte permutation is the rounds on the words, whichever view one starts from.
  lemma PermutesWords(s: seq<byte>)
    requires |s| == STATE
    ensures Words(LANES, Keccak1600(s)) ==
              Keccak.Rounds(Keccak.WORD64, Words(LANES, s), KeccakConstants.Constants(1, 24))
    ensures Bytes(LANES, Words(LANES, s)) == s
  {
    LanesRight();
    WordsOfBytes(LANES, Keccak.Rounds(Keccak.WORD64, Words(LANES, s), KeccakConstants.Constants(1, 24)));
    BytesOfWords(LANES, s);
  }

  lemma PermutesBytes(st: seq<lane>)
    requires |st| == 25
    ensures Keccak1600(Bytes(LANES, st))
         == Bytes(LANES, Keccak.Rounds(Keccak.WORD64, st, KeccakConstants.Constants(1, 24)))
  {
    LanesRight();
    WordsOfBytes(LANES, st);
  }

  const KECCAK: Permutation := s => Keccak1600(s)

  lemma KeccakKeepsSize()
    ensures KeepsSize(KECCAK)
  {
  }

  // sha3_keccakf on the union of bytes and words.
  method KeccakfOnBytes(st: array<byte>)
    requires st.Length == STATE
    modifies st
    ensures st[..] == KECCAK(old(st[..]))
  {
    var q := new lane[25];
    LoadWords(LANES, st, q);
    KeccakConstants.Keccakf1600(q);
    StoreBytes(LANES, q, st);
  }

  // ----- the hash functions

  // Section 6.1 of FIPS 202: n bytes of SHA3 with capacity 2n.
  ghost function Hash(n: nat, m: seq<byte>): (md: seq<byte>)
    requires 0 < n && n <= STATE - 2 * n
    ensures |md| == n
  {
    KeccakKeepsSize();
    Squeeze(KECCAK, STATE - 2 * n, Absorbed(KECCAK, STATE - 2 * n, m, 0x06), n)
  }

  // sha3
  method Sha3(data: array<byte>, len: nat, mdlen: nat) returns (md: seq<byte>)
    requires len <= data.Length && 0 < mdlen && mdlen <= STATE - 2 * mdlen
    ensures md == Hash(mdlen, data[..len])
  {
    KeccakKeepsSize();
    var c := new Context(KECCAK, mdlen);
    c.Update(data, len);
    assert [] + data[..len] == data[..len];
    md := c.Final();
  }

  // Section 6.2 of FIPS 202: SHAKE, with the output taken in pieces of any length.
  method Shake(data: array<byte>, len: nat, mdlen: nat, lens: seq<nat>) returns (out: seq<byte>)
    requires len <= data.Length && 0 < mdlen && mdlen <= STATE - 2 * mdlen
    ensures KeepsSize(KECCAK)
    ensures out == Squeeze(KECCAK, STATE - 2 * mdlen, Absorbed(KECCAK, STATE - 2 * mdlen, data[..len], 0x1f), Sum(lens))
  {
    KeccakKeepsSize();
    var c := new Context(KECCAK, mdlen);
    c.Update(data, len);
    assert [] + data[..len] == data[..len];
    c.StartOutput();
    out := TakeOutput(c, lens);
  }
}
