// The routines of lib/crc32c.c over a buffer, and the header digest that guards a PDU header with them
// (lib/socket.c, lib/pdu.c).
module CrcDigest {
  import opened Octets
  import opened PduHeader
  import opened CrcTable
  import opened Crc32c
  import LinearRegister

  class Digester {
    const crctable: array<word>

    ghost predicate Valid()
      reads crctable
    {
      RightTable(crctable[..])
    }

    // The global table with its constants.
    constructor ()
      ensures Valid() && fresh(crctable)
    {
      crctable := new word[256](i requires 0 <= i < 256 => TableEntry(i as byte));
      new;
      forall j: byte ensures RightAt(crctable[..], j) {
        assert (j as int) as byte == j;
        TableRight(j);
        EightRuns(j as word);
      }
    }

    method Turn(crc: word, b: byte) returns (crc': word)
      requires crctable.Length == 256
      ensures crc' == ByteStep(crctable[..], crc, b)
    {
      crc' := (crc >> 8) ^ crctable[LowByte(crc ^ (b as word)) as int];
    }

    // The bytes of `buf` from `start` on, `len` of them.
    method Crc32cChain(crc0: word, buf: array<byte>, start: nat, len: int) returns (crc: word)
      requires crctable.Length == 256 && start <= buf.Length && start + len <= buf.Length
      ensures crc == Chain(crctable[..], crc0, buf[start..start + (if len > 0 then len else 0)])
    {
      crc := crc0;
      var left, p := len, start;
      ghost var t, n := crctable[..], start + (if len > 0 then len else 0);
      while left > 0
        invariant start <= p <= n && left == len - (p - start)
        invariant Chain(t, crc0, buf[start..n]) == Chain(t, crc, buf[p..n])
        decreases left
      {
        assert buf[p..n][1..] == buf[p + 1..n] && buf[p..n][0] == buf[p];
        crc := Turn(crc, buf[p]);
        left, p := left - 1, p + 1;
      }
    }

    method Crc32cOf(buf: array<byte>, len: int) returns (crc: word)
      requires Valid() && len <= buf.Length
      ensures crc == Crc(crctable[..], buf[..if len > 0 then len else 0])
    {
      crc := Crc32cChain(ONES, buf, 0, len);
      assert buf[0..if len > 0 then len else 0] == buf[..if len > 0 then len else 0];
      crc := crc ^ ONES;
    }

    // The digest is written behind the raw header, least significant byte first.
    method UpdateHeaderDigest(data: array<byte>) returns (ok: bool)
      requires Valid() && data != crctable as object
      modifies data
      ensures Valid() && ok == (data.Length >= RAW_HEADER_SIZE + DIGEST_SIZE)
      ensures ok ==> HeaderDigestRight(crctable[..], data[..])
      ensures forall i :: 0 <= i < data.Length && !(ok && RAW_HEADER_SIZE <= i < RAW_HEADER_SIZE + DIGEST_SIZE) ==>
                data[i] == old(data[i])
    {
      if data.Length < RAW_HEADER_SIZE + DIGEST_SIZE {
        return false;
      }
      var crc := Crc32cOf(data, RAW_HEADER_SIZE);
      ghost var header := data[..RAW_HEADER_SIZE];
      data[RAW_HEADER_SIZE + 3] := LowByte(crc >> 24);
      data[RAW_HEADER_SIZE + 2] := LowByte(crc >> 16);
      data[RAW_HEADER_SIZE + 1] := LowByte(crc >> 8);
      data[RAW_HEADER_SIZE + 0] := LowByte(crc);
      LittleEndianRoundTrip(crc);
      assert data[..][..RAW_HEADER_SIZE] == header;
      return true;
    }

    // The check of a received header.
    method CheckHeaderDigest(hdr: array<byte>) returns (ok: bool)
      requires Valid() && hdr.Length >= RAW_HEADER_SIZE + DIGEST_SIZE
      ensures ok <==> HeaderDigestRight(crctable[..], hdr[..])
    {
      var crc := Crc32cOf(hdr, RAW_HEADER_SIZE);
      var rcvd := LittleEndian(hdr[RAW_HEADER_SIZE], hdr[RAW_HEADER_SIZE + 1], hdr[RAW_HEADER_SIZE + 2],
                               hdr[RAW_HEADER_SIZE + 3]);
      assert hdr[..][..RAW_HEADER_SIZE] == hdr[..RAW_HEADER_SIZE];
      return crc == rcvd;
    }
  }

  function LittleEndian(b0: byte, b1: byte, b2: byte, b3: byte): word {
    (b0 as word) | ((b1 as word) << 8) | ((b2 as word) << 16) | ((b3 as word) << 24)
  }

  lemma LittleEndianRoundTrip(x: word)
    ensures LittleEndian(LowByte(x), LowByte(x >> 8), LowByte(x >> 16), LowByte(x >> 24)) == x
  {
    LowByteFits(x);
    LowByteFits(x >> 8);
    LowByteFits(x >> 16);
    LowByteFits(x >> 24);
  }

  predicate HeaderDigestRight(t: seq<word>, h: seq<byte>)
    requires |t| == 256 && |h| >= RAW_HEADER_SIZE + DIGEST_SIZE
  {
    Crc(t, h[..RAW_HEADER_SIZE]) ==
    LittleEndian(h[RAW_HEADER_SIZE], h[RAW_HEADER_SIZE + 1], h[RAW_HEADER_SIZE + 2], h[RAW_HEADER_SIZE + 3])
  }

  // A header that was sent with its digest and arrives with damage to up to four consecutive bytes, or to an odd number
  // of bits, is refused.
  lemma DamagedHeaderIsRefused(t: seq<word>, h: seq<byte>, r: seq<byte>, i: nat)
    requires RightTable(t) && |h| == |r| >= RAW_HEADER_SIZE + DIGEST_SIZE && HeaderDigestRight(t, h)
    requires h[RAW_HEADER_SIZE..RAW_HEADER_SIZE + DIGEST_SIZE] == r[RAW_HEADER_SIZE..RAW_HEADER_SIZE + DIGEST_SIZE]
    requires h[..RAW_HEADER_SIZE] != r[..RAW_HEADER_SIZE]
    requires || (i + 4 <= RAW_HEADER_SIZE && forall j :: 0 <= j < RAW_HEADER_SIZE && !(i <= j < i + 4) ==> h[j] == r[j])
             || LinearRegister.Odd(LinearRegister.XorBits(Bits(h[..RAW_HEADER_SIZE]), Bits(r[..RAW_HEADER_SIZE])))
    ensures !HeaderDigestRight(t, r)
  {
    var x, y := h[..RAW_HEADER_SIZE], r[..RAW_HEADER_SIZE];
    var d := h[RAW_HEADER_SIZE..RAW_HEADER_SIZE + DIGEST_SIZE];
    assert d[0] == r[48] && d[1] == r[49] && d[2] == r[50] && d[3] == r[51];
    if i + 4 <= RAW_HEADER_SIZE && forall j :: 0 <= j < RAW_HEADER_SIZE && !(i <= j < i + 4) ==> h[j] == r[j] {
      forall j | 0 <= j < 8 * |x| && !(8 * i <= j < 8 * i + 32) ensures Bits(x)[j] == Bits(y)[j] {
        BitOfByte(x, j / 8, j % 8);
        BitOfByte(y, j / 8, j % 8);
        assert j == 8 * (j / 8) + j % 8;
      }
      BurstIsDetected(t, x, y, 8 * i, 32);
    } else {
      OddErrorIsDetected(t, x, y);
    }
  }

  lemma {:induction false} BitOfByte(s: seq<byte>, i: nat, k: nat)
    requires i < |s| && k < 8
    ensures Bits(s)[8 * i + k] == BitsOf(s[i])[k]
  {
    if i > 0 {
      BitOfByte(s[1..], i - 1, k);
      assert Bits(s)[8 * i + k] == Bits(s[1..])[8 * (i - 1) + k];
    }
  }
}
