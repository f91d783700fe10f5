// Sending one PDU: iscsi_write_to_socket in lib/socket.c, from the header to the data digest.
//
// The socket is non-blocking. Every call sends what the kernel takes at the moment and returns; the next call goes on
// where the last one stopped. Whatever the kernel takes and refuses, the wire gets the same bytes.
module PduWriter {
  import opened Common
  import opened Octets
  import opened PduHeader
  import opened Crc32c
  import opened CrcDigest
  import opened IoVector

  lemma RoundUp4OfMultiple(n: nat)
    requires n % 4 == 0
    ensures RoundUp4(n) == n
  {
  }

  // A data segment with its padding to a multiple of four bytes.
  function Padded(payload: seq<byte>): (s: seq<byte>)
    ensures |s| == RoundUp4(|payload|)
  {
    payload + Zeros(RoundUp4(|payload|) - |payload|)
  }

  function DigestBytes(x: word): (s: seq<byte>)
    ensures |s| == DIGEST_SIZE
  {
    [LowByte(x), LowByte(x >> 8), LowByte(x >> 16), LowByte(x >> 24)]
  }

  // The data digest, if there is one: over the padded payload, or else over the data behind the header.
  function Tail(t: seq<word>, header: seq<byte>, payload: seq<byte>, dataDigest: bool, offset: nat): seq<byte>
    requires |t| == 256 && RAW_HEADER_SIZE <= |header| && offset <= |header|
  {
    if !dataDigest then []
    else if |payload| > 0 then DigestBytes(Crc(t, Padded(payload)))
    else if DataSize(Numbers(header)) != 0 then DigestBytes(Crc(t, header[offset..]))
    else []
  }

  // The bytes of the PDU on the wire.
  function Stream(t: seq<word>, header: seq<byte>, payload: seq<byte>, dataDigest: bool, offset: nat): (s: seq<byte>)
    requires |t| == 256 && RAW_HEADER_SIZE <= |header| && offset <= |header|
  {
    header + Padded(payload) + Tail(t, header, payload, dataDigest, offset)
  }

  // What the kernel will answer, call after call; when the list is used up it would block.
  class Kernel {
    var answers: seq<int>

    constructor (answers: seq<int>)
      ensures this.answers == answers
    {
      this.answers := answers;
    }

    // It takes at least a byte when asked next.
    predicate Willing()
      reads this
    {
      |answers| > 0 && answers[0] > 0
    }

    method Next() returns (limit: int)
      modifies this
      ensures if |old(answers)| == 0 then limit == -1 && answers == []
              else limit == old(answers)[0] && answers == old(answers)[1..]
    {
      if |answers| == 0 {
        return -1;
      }
      limit, answers := answers[0], answers[1..];
    }
  }

  predicate AllWilling(turns: seq<seq<int>>) {
    forall i :: 0 <= i < |turns| ==> |turns[i]| > 0 && turns[i][0] > 0
  }

  datatype Result = Done | Pending | Failed

  lemma Extends(base: seq<byte>, s: seq<byte>, k: nat, m: nat, n: nat)
    requires k + m <= |s| && n <= m
    ensures base + s[..k] + s[k..k + m][..n] == base + s[..k + n]
  {
    assert s[k..k + m][..n] == s[k..k + n];
    assert s[..k] + s[k..k + n] == s[..k + n];
  }

  lemma ChainExtends(t: seq<word>, s: seq<byte>, k: nat, n: nat)
    requires |t| == 256 && k + n <= |s|
    ensures Chain(t, Chain(t, ONES, s[..k]), s[k..k + n]) == Chain(t, ONES, s[..k + n])
  {
    assert s[..k] + s[k..k + n] == s[..k + n];
    ChainSplit(t, ONES, s[..k], s[k..k + n]);
  }

  class OutPdu {
    const outdata: array<byte>
    const payloadOffset: nat
    const payloadLen: nat
    var outSize: nat
    var outWritten: nat
    var payloadWritten: nat
    var digest: word
    var digestComputed: bool

    // The negotiated digests.
    const dataDigest: bool
    const headerDigest: bool

    // The three parts of the PDU on the wire, what they form together, what was on the wire before, the digest table.
    ghost const header: seq<byte>
    ghost const padded: seq<byte>
    ghost const tail: seq<byte>
    ghost const hasTail: bool
    ghost const wanted: word
    ghost const stream: seq<byte>
    ghost const before: seq<byte>
    ghost const t: seq<word>

    constructor (outdata: array<byte>, size: nat, payloadOffset: nat, payloadLen: nat, dataDigest: bool,
                 headerDigest: bool, ghost payload: seq<byte>, ghost before: seq<byte>, ghost t: seq<word>)
      requires RAW_HEADER_SIZE <= size && RoundUp4(size) <= outdata.Length && |payload| == payloadLen && |t| == 256
      requires DataOffset(headerDigest, outdata[..RoundUp4(size)]) <= size
      ensures Valid() && Progress() == 0
      ensures this.outdata == outdata && this.payloadOffset == payloadOffset && this.payloadLen == payloadLen
      ensures this.dataDigest == dataDigest && this.headerDigest == headerDigest && this.before == before && this.t == t
      ensures padded == Padded(payload)
      ensures stream ==
                Stream(t, outdata[..RoundUp4(size)], payload, dataDigest,
                       DataOffset(headerDigest, outdata[..RoundUp4(size)]))
    {
      this.outdata, this.payloadOffset, this.payloadLen := outdata, payloadOffset, payloadLen;
      this.dataDigest, this.headerDigest := dataDigest, headerDigest;
      this.before, this.t := before, t;
      outSize, outWritten, payloadWritten, digest, digestComputed := size, 0, 0, ONES, false;
      header, padded := outdata[..RoundUp4(size)], Padded(payload);
      hasTail := dataDigest && (payloadLen > 0 || DataSize(Numbers(outdata[..RoundUp4(size)])) != 0);
      wanted := Chain(t, ONES, if payloadLen > 0 then Padded(payload)
                               else outdata[..RoundUp4(size)][DataOffset(headerDigest, outdata[..RoundUp4(size)])..]);
      tail := Tail(t, outdata[..RoundUp4(size)], payload, dataDigest,
                   DataOffset(headerDigest, outdata[..RoundUp4(size)]));
      stream := Stream(t, outdata[..RoundUp4(size)], payload, dataDigest,
                       DataOffset(headerDigest, outdata[..RoundUp4(size)]));
      new;
      assert padded[..0] == [];
    }

    // How the parts of the stream lie; all of it fixed when the PDU is made.
    ghost predicate Layout() {
      && |padded| == RoundUp4(payloadLen) && |t| == 256 && stream == header + padded + tail
    }

    // The digest the PDU ends with: whether there is one, and the register after everything it covers.
    ghost predicate TailRight() {
      && |t| == 256 && RAW_HEADER_SIZE <= |header| && DataOffset(headerDigest, header) <= |header|
      && hasTail == (dataDigest && (payloadLen > 0 || DataSize(Numbers(header)) != 0))
      && wanted == Chain(t, ONES, if payloadLen > 0 then padded else header[DataOffset(headerDigest, header)..])
      && tail == (if hasTail then DigestBytes(wanted ^ ONES) else [])
      && |padded| >= payloadLen && padded[payloadLen..] == Zeros(|padded| - payloadLen)
    }

    // The header buffer, and how much of it is sent.
    ghost predicate HeaderValid()
      reads this`outSize, this`outWritten, outdata
    {
      && RoundUp4(outSize) == |header| <= outdata.Length && header == outdata[..|header|]
      && outWritten <= |header|
    }

    // The digest register has seen what was sent of the padded payload, or all data of the header.
    ghost predicate DigestValid()
      reads this`digest, this`digestComputed, this`payloadWritten
      requires Layout()
    {
      && (dataDigest ==> digest == Running())
      && (digestComputed ==> payloadLen == 0 && hasTail)
      && (payloadLen == 0 && payloadWritten > 0 ==> digestComputed)
    }

    ghost function Running(): word
      reads this`digestComputed, this`payloadWritten
      requires Layout()
    {
      if payloadLen > 0 then Chain(t, ONES, padded[..Min(payloadWritten, |padded|)])
      else if digestComputed then wanted
      else ONES
    }

    ghost function Progress(): nat
      reads this`outWritten, this`payloadWritten
    {
      outWritten + payloadWritten
    }

    // What is on the wire now.
    ghost predicate OnWire(sock: Socket)
      reads this`outWritten, this`payloadWritten, sock`sent
    {
      && (payloadWritten > 0 ==> outWritten == |header|)
      && SentSoFar(sock.sent, before, stream, Progress())
    }

    ghost predicate Valid()
      reads this, outdata
    {
      Layout() && TailRight() && HeaderValid() && DigestValid()
    }

    // The header with any data behind it.
    method SendHeader(kernel: Kernel, sock: Socket) returns (complete: bool)
      requires Layout() && HeaderValid() && OnWire(sock)
      modifies kernel, sock`sent, this`outSize, this`outWritten
      ensures HeaderValid() && OnWire(sock)
      ensures complete <==> outWritten == |header|
      ensures complete ==> outSize == |header|
      ensures |kernel.answers| <= |old(kernel.answers)| && outWritten >= old(outWritten)
      ensures old(kernel.Willing()) ==> outWritten > old(outWritten) || (complete && kernel.Willing())
    {
      RoundUp4OfMultiple(RoundUp4(outSize));
      outSize := RoundUp4(outSize);
      if outWritten < outSize {
        InHeader(header, padded, tail, outWritten);
        var n := SendPart(kernel, sock, outdata[outWritten..outSize], before, stream, outWritten);
        if n < 0 {
          return false;
        }
        outWritten := outWritten + n;
      }
      return outWritten == outSize;
    }

    // The entries `v` of the task's buffers hold the payload in a memory `image`, as far as they reach.
    ghost predicate Backed(v: seq<Iovec>, image: seq<byte>)
      requires Layout()
    {
      && AllFit(v, |image|) && payloadOffset + payloadLen < 0x1_0000_0000
      && (payloadOffset + payloadLen <= Total(v) ==> Held(v, image, payloadOffset, payloadLen) == padded[..payloadLen])
    }

    // The cursor is over these entries, in that memory.
    ghost predicate Ready(mem: array<byte>, cursor: Cursor, digester: Digester, v: seq<Iovec>, image: seq<byte>)
      reads mem, cursor, cursor.iov, digester.crctable
    {
      cursor.Valid() && cursor.Entries() == v && mem[..] == image && digester.crctable[..] == t
    }

    // The cursor is not past the next byte of the payload. It never goes back.
    ghost predicate InReach(cursor: Cursor)
      reads this`payloadWritten, cursor`offset
    {
      cursor.offset <= payloadOffset + payloadWritten
    }

    // The rest of the payload can be had: there are buffers, they are long enough, and the cursor is not past it.
    ghost predicate CanDeliver(cursor: Cursor, v: seq<Iovec>)
      reads this`payloadWritten, cursor`offset, cursor`iov
    {
      cursor.iov != null && InReach(cursor) && payloadOffset + payloadLen <= Total(v)
    }

    ghost predicate Separate(mem: array<byte>, cursor: Cursor, digester: Digester)
      reads cursor`iov
    {
      && outdata != mem && mem != digester.crctable as object && outdata != digester.crctable as object
      && (cursor.iov != null ==>
            cursor.iov != mem as object && cursor.iov != outdata as object && cursor.iov != digester.crctable as object)
    }

    // One turn of the payload loop.
    method SendSome(kernel: Kernel, sock: Socket, mem: array<byte>, cursor: Cursor, digester: Digester,
                    ghost v: seq<Iovec>, ghost image: seq<byte>)
      returns (out: Outcome)
      requires Layout() && DigestValid() && OnWire(sock) && outWritten == |header| && payloadWritten < payloadLen
      requires Separate(mem, cursor, digester) && Ready(mem, cursor, digester, v, image) && Backed(v, image)
      modifies kernel, sock, mem, cursor`offset, cursor`consumed, cursor.iov, this`payloadWritten, this`digest
      ensures DigestValid() && OnWire(sock) && payloadWritten <= payloadLen
      ensures Ready(mem, cursor, digester, v, image) && (old(InReach(cursor)) ==> InReach(cursor))
      ensures out == Invalid <==> !old(CanDeliver(cursor, v))
      ensures payloadWritten >= old(payloadWritten)
      ensures if out.Moved? then |kernel.answers| < |old(kernel.answers)| else payloadWritten == old(payloadWritten)
      ensures old(kernel.Willing()) && out != Invalid ==> out.Moved? && payloadWritten > old(payloadWritten)
    {
      var k := payloadWritten;
      var d;
      out, d := Transmit(kernel, sock, mem, cursor, digester, v, image, k);
      if out.Moved? {
        Account(out.n, d, sock);
      }
    }

    // The next n bytes of the padded payload are out.
    method Account(n: nat, d: Option<word>, ghost sock: Socket)
      requires Layout() && DigestValid() && outWritten == |header| && payloadWritten + n <= |padded| && payloadLen > 0
      requires SentSoFar(sock.sent, before, stream, |header| + payloadWritten + n)
      requires d == if dataDigest then Some(Chain(t, digest, padded[payloadWritten..payloadWritten + n])) else None
      modifies this`payloadWritten, this`digest
      ensures DigestValid() && OnWire(sock) && payloadWritten == old(payloadWritten) + n
    {
      ChainExtends(t, padded, payloadWritten, n);
      payloadWritten := payloadWritten + n;
      if dataDigest {
        digest := d.value;
      }
    }

    method Transmit(kernel: Kernel, sock: Socket, mem: array<byte>, cursor: Cursor, digester: Digester,
                    ghost v: seq<Iovec>, ghost image: seq<byte>, k: nat)
      returns (out: Outcome, d: Option<word>)
      requires Layout() && SentSoFar(sock.sent, before, stream, |header| + k) && k == payloadWritten < payloadLen
      requires Separate(mem, cursor, digester) && Ready(mem, cursor, digester, v, image) && Backed(v, image)
      modifies kernel, sock, mem, cursor`offset, cursor`consumed, cursor.iov
      ensures Ready(mem, cursor, digester, v, image) && (old(InReach(cursor)) ==> InReach(cursor))
      ensures out == Invalid <==> !old(CanDeliver(cursor, v))
      ensures !out.Moved? ==> sock.sent == old(sock.sent)
      ensures old(kernel.Willing()) && out != Invalid ==> out.Moved? && out.n > 0
      ensures out.Moved? ==>
              && k + out.n <= payloadLen && |kernel.answers| < |old(kernel.answers)|
              && SentSoFar(sock.sent, before, stream, |header| + k + out.n)
      ensures out.Moved? ==> d == if dataDigest then Some(Chain(t, digest, padded[k..k + out.n])) else None
    {
      var dg := if dataDigest then Some(digest) else None;
      out, d := WritePart(kernel, sock, mem, cursor, digester, t, v, image, payloadOffset, payloadLen, k, dg,
                          header, padded, tail, stream, before);
    }

    // The payload loop: it ends when the payload is out, the kernel takes no more, or the buffers are too short.
    method SendPayload(kernel: Kernel, sock: Socket, mem: array<byte>, cursor: Cursor, digester: Digester,
                       ghost v: seq<Iovec>, ghost image: seq<byte>)
      returns (r: Result)
      requires Layout() && DigestValid() && OnWire(sock) && outWritten == |header|
      requires Separate(mem, cursor, digester) && Ready(mem, cursor, digester, v, image) && Backed(v, image)
      modifies kernel, sock, mem, cursor`offset, cursor`consumed, cursor.iov, this`payloadWritten, this`digest
      ensures DigestValid() && OnWire(sock) && Ready(mem, cursor, digester, v, image)
      ensures old(InReach(cursor)) ==> InReach(cursor)
      ensures r == Done <==> payloadWritten >= payloadLen
      ensures r == Failed <==> old(payloadWritten) < payloadLen && !old(CanDeliver(cursor, v))
      ensures old(payloadWritten) >= payloadLen ==>
                payloadWritten == old(payloadWritten) && digest == old(digest) && kernel.answers == old(kernel.answers)
      ensures payloadWritten >= old(payloadWritten)
      ensures old(kernel.Willing()) && old(payloadWritten) < payloadLen && r != Failed ==>
                payloadWritten > old(payloadWritten)
    {
      while payloadWritten < payloadLen
        invariant DigestValid() && OnWire(sock) && Ready(mem, cursor, digester, v, image)
        invariant old(InReach(cursor)) ==> InReach(cursor)
        invariant old(payloadWritten) < payloadLen ==> CanDeliver(cursor, v) == old(CanDeliver(cursor, v))
        invariant old(payloadWritten) < payloadLen ==> payloadWritten < payloadLen || old(CanDeliver(cursor, v))
        invariant old(payloadWritten) >= payloadLen ==>
                    payloadWritten == old(payloadWritten) && digest == old(digest) &&
                      kernel.answers == old(kernel.answers)
        invariant payloadWritten > old(payloadWritten) ||
                  (payloadWritten == old(payloadWritten) && (old(kernel.Willing()) ==> kernel.Willing()))
        decreases |kernel.answers|, payloadLen - payloadWritten
      {
        var out := SendSome(kernel, sock, mem, cursor, digester, v, image);
        if out == Invalid {
          return Failed;
        }
        if out == WouldBlock {
          return Pending;
        }
      }
      return Done;
    }

    // The zero bytes behind the payload.
    method SendPadding(kernel: Kernel, sock: Socket, digester: Digester) returns (complete: bool)
      requires Layout() && DigestValid() && OnWire(sock) && outWritten == |header| && payloadWritten >= payloadLen
      requires padded[payloadLen..] == Zeros(|padded| - payloadLen)
      requires digester.crctable.Length == 256 && digester.crctable[..] == t
      modifies kernel, sock`sent, this`payloadWritten, this`digest
      ensures DigestValid() && OnWire(sock) && payloadWritten >= old(payloadWritten)
      ensures complete <==> payloadWritten >= |padded|
      ensures old(payloadWritten) >= |padded| ==> payloadWritten == old(payloadWritten) && digest == old(digest)
      ensures old(kernel.Willing()) ==> payloadWritten > old(payloadWritten) || (complete && kernel.Willing())
    {
      var total := RoundUp4(payloadLen);
      if payloadWritten < total {
        RoundUp4OfMultiple(0);
        var n, d := SendZeros(kernel, sock, digester, payloadWritten, total);
        if n < 0 {
          return false;
        }
        assert SentSoFar(sock.sent, before, stream, |header| + payloadWritten + n);
        Account(n, if dataDigest then Some(d) else None, sock);
      }
      return payloadWritten >= total;
    }

    method SendZeros(kernel: Kernel, sock: Socket, digester: Digester, k: nat, total: nat) returns (n: int, d: word)
      requires Layout() && SentSoFar(sock.sent, before, stream, |header| + k) && payloadLen <= k < total == |padded|
      requires padded[payloadLen..] == Zeros(|padded| - payloadLen)
      requires digester.crctable.Length == 256 && digester.crctable[..] == t
      modifies kernel, sock`sent
      ensures n <= total - k && SentSoFar(sock.sent, before, stream, if n < 0 then |header| + k else |header| + k + n)
      ensures n >= 0 ==> d == Chain(t, digest, padded[k..k + n])
      ensures old(kernel.Willing()) ==> n > 0
    {
      n, d := SendPaddingBuf(kernel, sock, digester, total - k, digest, header, padded, tail, stream, before, k,
                             payloadLen);
    }

    // A PDU without payload whose header buffer holds data: its digest is taken once, when that data is out.
    method DigestHeaderData(digester: Digester) returns (execute: bool)
      requires Layout() && TailRight() && HeaderValid() && DigestValid() && outWritten == |header| == outSize
      requires digester.crctable.Length == 256 && digester.crctable[..] == t
      modifies this`digest, this`digestComputed
      ensures DigestValid() && execute == (hasTail && payloadLen == 0)
      ensures execute ==> digestComputed
    {
      execute := dataDigest && DataSize(Numbers(outdata[..outSize])) != 0 && payloadLen == 0;
      if execute && !digestComputed {
        var offset := DataOffset(headerDigest, outdata[..outSize]);
        assert outdata[offset..outSize] == header[offset..];
        digest := digester.Crc32cChain(digest, outdata, offset, outSize - offset);
        digestComputed := true;
      }
    }

    // The data digest, least significant byte first.
    method SendTail(kernel: Kernel, sock: Socket, execute: bool) returns (complete: bool)
      requires Layout() && TailRight() && DigestValid() && OnWire(sock) && outWritten == |header|
      requires payloadWritten >= |padded| && execute == (hasTail && payloadLen == 0) && (execute ==> digestComputed)
      modifies kernel, sock`sent, this`payloadWritten
      ensures DigestValid() && OnWire(sock) && payloadWritten >= old(payloadWritten)
      ensures complete <==> Progress() == |stream|
      ensures old(kernel.Willing()) ==> complete || payloadWritten > old(payloadWritten)
    {
      var total := RoundUp4(payloadLen);
      if execute || (dataDigest && payloadWritten > 0) {
        assert digest == wanted by {
          assert padded[..|padded|] == padded;
        }
        total := total + DIGEST_SIZE;
        if payloadWritten < total {
          var n := SendDigest(kernel, sock, total - payloadWritten);
          if n < 0 {
            return false;
          }
          payloadWritten := payloadWritten + n;
        }
      }
      return payloadWritten == total;
    }

    method SendDigest(kernel: Kernel, sock: Socket, todo: nat) returns (n: int)
      requires Layout() && 0 < todo <= DIGEST_SIZE && tail == DigestBytes(digest ^ ONES)
      requires SentSoFar(sock.sent, before, stream, |stream| - todo)
      modifies kernel, sock`sent
      ensures n <= todo && SentSoFar(sock.sent, before, stream, |stream| - todo + if n < 0 then 0 else n)
      ensures old(kernel.Willing()) ==> n > 0
    {
      var bytes := DigestBytes(digest ^ ONES)[DIGEST_SIZE - todo..];
      InTail(header, padded, tail, stream, bytes, todo);
      n := SendPart(kernel, sock, bytes, before, stream, |stream| - todo);
    }

    // One call: everything the kernel takes now.
    method Write(kernel: Kernel, sock: Socket, mem: array<byte>, cursor: Cursor, digester: Digester,
                 ghost v: seq<Iovec>, ghost image: seq<byte>)
      returns (r: Result)
      requires Valid() && OnWire(sock)
      requires Separate(mem, cursor, digester) && Ready(mem, cursor, digester, v, image) && Backed(v, image)
      modifies this, kernel, sock, mem, cursor`offset, cursor`consumed, cursor.iov
      ensures Valid() && OnWire(sock) && Ready(mem, cursor, digester, v, image)
      ensures r == Done <==> Progress() == |stream|
      ensures r == Done ==> sock.sent == before + stream
      ensures r == Failed ==> old(payloadWritten) < payloadLen && !old(CanDeliver(cursor, v))
      ensures old(InReach(cursor)) ==> InReach(cursor)
      ensures Progress() >= old(Progress()) && (old(kernel.Willing()) && r == Pending ==> Progress() > old(Progress()))
    {
      var complete := SendHeader(kernel, sock);
      if !complete {
        return Pending;
      }
      r := WriteBody(kernel, sock, mem, cursor, digester, v, image);
      assert r == Done ==> stream[..Progress()] == stream;
    }

    // Any number of calls, each with whatever the kernel then takes and refuses: as long as the PDU is not complete a
    // prefix of its bytes is on the wire, and in the end exactly its bytes. As many calls as there are bytes left
    // suffice when the kernel takes at least one byte in each.
    method WriteInTurns(turns: seq<seq<int>>, sock: Socket, mem: array<byte>, cursor: Cursor, digester: Digester,
                        ghost v: seq<Iovec>, ghost image: seq<byte>)
      returns (r: Result)
      requires Valid() && OnWire(sock)
      requires Separate(mem, cursor, digester) && Ready(mem, cursor, digester, v, image) && Backed(v, image)
      requires CanDeliver(cursor, v)
      modifies this, sock, mem, cursor`offset, cursor`consumed, cursor.iov
      ensures r != Failed && Valid() && OnWire(sock) && mem[..] == image && cursor.Valid() && cursor.Entries() == v
      ensures r == Pending ==> before <= sock.sent <= before + stream
      ensures r == Done ==> sock.sent == before + stream
      ensures AllWilling(turns) && |turns| > 0 && |turns| >= |stream| - old(Progress()) ==> r == Done
    {
      r := Pending;
      for i := 0 to |turns|
        invariant r == Pending && Valid() && OnWire(sock) && (i > 0 ==> Progress() < |stream|)
        invariant AllWilling(turns) ==> Progress() >= old(Progress()) + i
        invariant Ready(mem, cursor, digester, v, image) && Separate(mem, cursor, digester) && CanDeliver(cursor, v)
      {
        var kernel := new Kernel(turns[i]);
        r := Write(kernel, sock, mem, cursor, digester, v, image);
        if r != Pending {
          return;
        }
      }
    }

    // Everything behind the header.
    method WriteBody(kernel: Kernel, sock: Socket, mem: array<byte>, cursor: Cursor, digester: Digester,
                     ghost v: seq<Iovec>, ghost image: seq<byte>)
      returns (r: Result)
      requires Valid() && OnWire(sock) && outWritten == |header| == outSize
      requires Separate(mem, cursor, digester) && Ready(mem, cursor, digester, v, image) && Backed(v, image)
      modifies kernel, sock, mem, cursor`offset, cursor`consumed, cursor.iov
      modifies this`payloadWritten, this`digest, this`digestComputed
      ensures HeaderValid() && DigestValid() && OnWire(sock) && Ready(mem, cursor, digester, v, image)
      ensures r == Done <==> Progress() == |stream|
      ensures r == Failed ==> old(payloadWritten) < payloadLen && !old(CanDeliver(cursor, v))
      ensures old(InReach(cursor)) ==> InReach(cursor)
      ensures payloadWritten >= old(payloadWritten)
      ensures old(kernel.Willing()) && r == Pending ==> payloadWritten > old(payloadWritten)
    {
      var execute := DigestHeaderData(digester);
      r := WriteData(kernel, sock, mem, cursor, digester, v, image, execute);
    }

    // Payload, padding and digest.
    method WriteData(kernel: Kernel, sock: Socket, mem: array<byte>, cursor: Cursor, digester: Digester,
                     ghost v: seq<Iovec>, ghost image: seq<byte>, execute: bool)
      returns (r: Result)
      requires Layout() && TailRight() && DigestValid() && OnWire(sock) && outWritten == |header|
      requires execute == (hasTail && payloadLen == 0) && (execute ==> digestComputed)
      requires Separate(mem, cursor, digester) && Ready(mem, cursor, digester, v, image) && Backed(v, image)
      modifies kernel, sock, mem, cursor`offset, cursor`consumed, cursor.iov
      modifies this`payloadWritten, this`digest
      ensures DigestValid() && OnWire(sock) && Ready(mem, cursor, digester, v, image)
      ensures r == Done <==> Progress() == |stream|
      ensures r == Failed ==> old(payloadWritten) < payloadLen && !old(CanDeliver(cursor, v))
      ensures old(InReach(cursor)) ==> InReach(cursor)
      ensures payloadWritten >= old(payloadWritten)
      ensures old(kernel.Willing()) && r == Pending ==> payloadWritten > old(payloadWritten)
    {
      r := SendPayload(kernel, sock, mem, cursor, digester, v, image);
      if r != Done {
        return r;
      }
      var complete := Finish(kernel, sock, digester, execute);
      return if complete then Done else Pending;
    }

    // Padding and digest.
    method Finish(kernel: Kernel, sock: Socket, digester: Digester, execute: bool) returns (complete: bool)
      requires Layout() && TailRight() && DigestValid() && OnWire(sock) && outWritten == |header|
      requires payloadWritten >= payloadLen && execute == (hasTail && payloadLen == 0) && (execute ==> digestComputed)
      requires padded[payloadLen..] == Zeros(|padded| - payloadLen)
      requires digester.crctable.Length == 256 && digester.crctable[..] == t
      modifies kernel, sock`sent, this`payloadWritten, this`digest
      ensures DigestValid() && OnWire(sock) && payloadWritten >= old(payloadWritten)
      ensures complete <==> Progress() == |stream|
      ensures old(kernel.Willing()) ==> complete || payloadWritten > old(payloadWritten)
    {
      complete := SendPadding(kernel, sock, digester);
      if complete {
        complete := SendTail(kernel, sock, execute);
      }
    }
  }

  lemma PaddingSlice(padded: seq<byte>, len: nat, k: nat, bytes: seq<byte>)
    requires len <= k <= |padded| && padded[len..] == Zeros(|padded| - len)
    requires |bytes| == |padded| - k && forall i :: 0 <= i < |bytes| ==> bytes[i] == 0
    ensures bytes == padded[k..]
  {
    forall i | 0 <= i < |bytes| ensures padded[k..][i] == bytes[i] {
      assert padded[len..][k - len + i] == 0;
    }
  }

  // The first `todo` bytes of padding_buf, as far as the kernel takes them.
  method SendPaddingBuf(kernel: Kernel, sock: Socket, digester: Digester, todo: nat, digest: word,
                        ghost header: seq<byte>, ghost padded: seq<byte>, ghost tail: seq<byte>,
                        ghost stream: seq<byte>, ghost before: seq<byte>, ghost k: nat, ghost len: nat)
    returns (n: int, d: word)
    requires stream == header + padded + tail && SentSoFar(sock.sent, before, stream, |header| + k)
    requires len <= k && 0 < todo <= 3 && k + todo == |padded| && padded[len..] == Zeros(|padded| - len)
    requires digester.crctable.Length == 256
    modifies kernel, sock`sent
    ensures n <= todo && SentSoFar(sock.sent, before, stream, if n < 0 then |header| + k else |header| + k + n)
    ensures n >= 0 ==> d == Chain(digester.crctable[..], digest, padded[k..k + n])
    ensures old(kernel.Willing()) ==> n > 0
  {
    var paddingBuf := new byte[3](_ => 0);
    var bytes := paddingBuf[..todo];
    PaddingSlice(padded, len, k, bytes);
    PaddingOnStream(header, padded, tail, k, bytes);
    n := SendPart(kernel, sock, bytes, before, stream, |header| + k);
    d := digest;
    if n >= 0 {
      Prefixes(paddingBuf[..], padded, k, todo, n);
      d := digester.Crc32cChain(digest, paddingBuf, 0, n);
    }
  }

  lemma PaddingOnStream(h: seq<byte>, p: seq<byte>, d: seq<byte>, k: nat, bytes: seq<byte>)
    requires k <= |p| && bytes == p[k..]
    ensures (h + p + d)[|h| + k..|h| + k + |bytes|] == bytes
  {
  }

  lemma Prefixes(buf: seq<byte>, padded: seq<byte>, k: nat, m: nat, n: nat)
    requires n <= m <= |buf| && k + m == |padded| && buf[..m] == padded[k..]
    ensures buf[0..n] == padded[k..k + n]
  {
    assert buf[0..n] == buf[..m][..n];
  }

  // The cursor's call in the writing direction.
  method WriteAt(kernel: Kernel, sock: Socket, mem: array<byte>, cursor: Cursor, digester: Digester, ghost t: seq<word>,
                 ghost v: seq<Iovec>, ghost image: seq<byte>, pos: nat, count: nat, dg: Option<word>)
    returns (out: Outcome, d: Option<word>)
    requires Fits(cursor, mem, digester, t, v) && mem[..] == image
    requires pos + count < 0x1_0000_0000 && count > 0
    modifies kernel, sock, mem, cursor`offset, cursor`consumed, cursor.iov
    ensures Fits(cursor, mem, digester, t, v) && mem[..] == image
    ensures old(cursor.offset) <= pos ==> cursor.offset <= pos
    ensures out == Invalid <==> cursor.iov == null || old(cursor.offset) > pos || pos + count > Total(v)
    ensures !out.Moved? ==> sock.sent == old(sock.sent)
    ensures out.Moved? ==> pos + count <= Total(v) && out.n <= count && |kernel.answers| < |old(kernel.answers)|
    ensures old(kernel.Willing()) && out != Invalid ==> out.Moved? && out.n > 0
    ensures out.Moved? ==> sock.sent == old(sock.sent) + Held(v, image, pos, out.n)
    ensures out.Moved? ==> d == if dg == None then None else Some(Chain(t, dg.value, Held(v, image, pos, out.n)))
  {
    var limit := kernel.Next();
    SmallRangeIsAccepted(v, pos, count);
    ghost var s0 := Now(sock, mem, dg);
    out, d := cursor.ReadvWritev(sock, mem, digester, t, v, pos, count, dg, true, limit);
    if out.Moved? {
      WriteEffect(t, v, pos, count, limit, s0, Now(sock, mem, d), out.n);
    }
  }

  // The same call seen from the wire.
  method WritePart(kernel: Kernel, sock: Socket, mem: array<byte>, cursor: Cursor, digester: Digester,
                   ghost t: seq<word>, ghost v: seq<Iovec>, ghost image: seq<byte>, offset: nat, len: nat, k: nat,
                   dg: Option<word>, ghost header: seq<byte>, ghost padded: seq<byte>, ghost tail: seq<byte>,
                   ghost stream: seq<byte>, ghost before: seq<byte>)
    returns (out: Outcome, d: Option<word>)
    requires Fits(cursor, mem, digester, t, v) && mem[..] == image
    requires offset + len < 0x1_0000_0000 && k < len <= |padded|
    requires stream == header + padded + tail && SentSoFar(sock.sent, before, stream, |header| + k)
    requires offset + len <= Total(v) ==> Held(v, image, offset, len) == padded[..len]
    modifies kernel, sock, mem, cursor`offset, cursor`consumed, cursor.iov
    ensures Fits(cursor, mem, digester, t, v) && mem[..] == image
    ensures old(cursor.offset) <= offset + k ==> cursor.offset <= offset + k
    ensures out == Invalid <==> cursor.iov == null || old(cursor.offset) > offset + k || offset + len > Total(v)
    ensures !out.Moved? ==> sock.sent == old(sock.sent)
    ensures old(kernel.Willing()) && out != Invalid ==> out.Moved? && out.n > 0
    ensures out.Moved? ==> k + out.n <= len && |kernel.answers| < |old(kernel.answers)|
    ensures out.Moved? ==> SentSoFar(sock.sent, before, stream, |header| + k + out.n)
    ensures out.Moved? ==> d == if dg == None then None else Some(Chain(t, dg.value, padded[k..k + out.n]))
  {
    ghost var sent := sock.sent;
    out, d := WriteBytes(kernel, sock, mem, cursor, digester, t, v, image, offset, len, k, dg, padded);
    if out.Moved? {
      StreamStep(sent, sock.sent, k, out.n, header, padded, tail, stream, before);
    }
  }

  // The same call seen from the payload.
  method WriteBytes(kernel: Kernel, sock: Socket, mem: array<byte>, cursor: Cursor, digester: Digester,
                    ghost t: seq<word>, ghost v: seq<Iovec>, ghost image: seq<byte>, offset: nat, len: nat, k: nat,
                    dg: Option<word>, ghost padded: seq<byte>)
    returns (out: Outcome, d: Option<word>)
    requires Fits(cursor, mem, digester, t, v) && mem[..] == image
    requires offset + len < 0x1_0000_0000 && k < len <= |padded|
    requires offset + len <= Total(v) ==> Held(v, image, offset, len) == padded[..len]
    modifies kernel, sock, mem, cursor`offset, cursor`consumed, cursor.iov
    ensures Fits(cursor, mem, digester, t, v) && mem[..] == image
    ensures old(cursor.offset) <= offset + k ==> cursor.offset <= offset + k
    ensures out == Invalid <==> cursor.iov == null || old(cursor.offset) > offset + k || offset + len > Total(v)
    ensures !out.Moved? ==> sock.sent == old(sock.sent)
    ensures old(kernel.Willing()) && out != Invalid ==> out.Moved? && out.n > 0
    ensures out.Moved? ==> k + out.n <= len && |kernel.answers| < |old(kernel.answers)|
    ensures out.Moved? ==> sock.sent == old(sock.sent) + padded[k..k + out.n]
    ensures out.Moved? ==> d == if dg == None then None else Some(Chain(t, dg.value, padded[k..k + out.n]))
  {
    out, d := WriteAt(kernel, sock, mem, cursor, digester, t, v, image, offset + k, len - k, dg);
    if out.Moved? {
      PayloadPart(v, image, offset, len, k, out.n, padded);
    }
  }

  lemma WriteEffect(t: seq<word>, v: seq<Iovec>, pos: nat, count: nat, limit: int, s: Picture, s': Picture, n: nat)
    requires Moves(t, v, pos, count, true, limit, s, s', n) && AllFit(v, |s.mem|)
    ensures |t| == 256 && pos + count <= Total(v) && n <= count && s'.mem == s.mem
    ensures s'.sent == s.sent + Held(v, s.mem, pos, n)
    ensures s'.digest == if s.digest == None then None else Some(Chain(t, s.digest.value, Held(v, s.mem, pos, n)))
  {
    assert IsPart(Addresses(v)[pos..pos + n], v, pos, n);
  }

  lemma PayloadPart(v: seq<Iovec>, image: seq<byte>, offset: nat, len: nat, k: nat, n: nat, padded: seq<byte>)
    requires AllFit(v, |image|) && k + n <= len <= |padded| && offset + len <= Total(v)
    requires Held(v, image, offset, len) == padded[..len]
    ensures Held(v, image, offset + k, n) == padded[k..k + n]
  {
    HeldPart(v, image, offset, len, k, n);
    assert padded[..len][k..k + n] == padded[k..k + n];
  }

  // One transfer seen from the wire: the next `n` bytes of the payload have gone out.
  lemma StreamStep(sent: seq<byte>, sent': seq<byte>, k: nat, n: nat, header: seq<byte>, padded: seq<byte>,
                   tail: seq<byte>, stream: seq<byte>, before: seq<byte>)
    requires k + n <= |padded| && stream == header + padded + tail && SentSoFar(sent, before, stream, |header| + k)
    requires sent' == sent + padded[k..k + n]
    ensures SentSoFar(sent', before, stream, |header| + k + n)
  {
    InPayload(header, padded, tail, k, n);
    Extends(before, stream, |header| + k, n, n);
    assert stream[|header| + k..|header| + k + n][..n] == padded[k..k + n];
  }

  // What `n` bytes of the buffers hold from position `lo` on.
  ghost function Held(v: seq<Iovec>, mem: seq<byte>, lo: nat, n: nat): (s: seq<byte>)
    requires AllFit(v, |mem|) && lo + n <= Total(v)
    ensures |s| == n
  {
    AddressesInside(v, |mem|);
    Load(mem, Addresses(v)[lo..lo + n])
  }

  lemma HeldPart(v: seq<Iovec>, mem: seq<byte>, lo: nat, n: nat, k: nat, m: nat)
    requires AllFit(v, |mem|) && lo + n <= Total(v) && k + m <= n
    ensures Held(v, mem, lo + k, m) == Held(v, mem, lo, n)[k..k + m]
  {
    AddressesInside(v, |mem|);
    var all, part := Held(v, mem, lo, n), Held(v, mem, lo + k, m);
    forall i | 0 <= i < m ensures part[i] == all[k..k + m][i] {
      assert part[i] == mem[Addresses(v)[lo + k + i]] == all[k + i];
    }
  }

  // The first `k` bytes of `stream` went out after `before`.
  predicate SentSoFar(sent: seq<byte>, before: seq<byte>, stream: seq<byte>, k: nat) {
    k <= |stream| && sent == before + stream[..k]
  }

  // One send() of the next bytes of a stream.
  method SendPart(kernel: Kernel, sock: Socket, bytes: seq<byte>, ghost before: seq<byte>, ghost stream: seq<byte>,
                  ghost k: nat)
    returns (n: int)
    requires SentSoFar(sock.sent, before, stream, k) && k + |bytes| <= |stream| && bytes == stream[k..k + |bytes|]
    modifies kernel, sock`sent
    ensures -1 <= n <= |bytes| && |kernel.answers| <= |old(kernel.answers)|
    ensures n < 0 <==> |old(kernel.answers)| == 0 || old(kernel.answers)[0] < 0
    ensures SentSoFar(sock.sent, before, stream, if n < 0 then k else k + n)
    ensures n >= 0 ==> |kernel.answers| < |old(kernel.answers)|
    ensures old(kernel.Willing()) && |bytes| > 0 ==> n > 0
  {
    var limit := kernel.Next();
    n := sock.Send(bytes, limit);
    if n >= 0 {
      Extends(before, stream, k, |bytes|, n);
    }
  }

  lemma InHeader(h: seq<byte>, p: seq<byte>, d: seq<byte>, k: nat)
    requires k <= |h|
    ensures (h + p + d)[k..|h|] == h[k..]
  {
  }

  lemma InPayload(h: seq<byte>, p: seq<byte>, d: seq<byte>, k: nat, n: nat)
    requires k + n <= |p|
    ensures (h + p + d)[|h| + k..|h| + k + n] == p[k..k + n]
  {
  }

  lemma InTail(h: seq<byte>, p: seq<byte>, d: seq<byte>, s: seq<byte>, bytes: seq<byte>, todo: nat)
    requires s == h + p + d && todo <= |d| && bytes == d[|d| - todo..]
    ensures |bytes| == todo <= |s| && s[|s| - todo..|s| - todo + |bytes|] == bytes
  {
    assert s == (h + p) + d;
  }

  // Where the data in the header buffer begins: behind the header, its digest and any additional header segments.
  function DataOffset(headerDigest: bool, header: seq<byte>): nat
    requires |header| >= RAW_HEADER_SIZE
  {
    (if headerDigest then RAW_HEADER_SIZE + DIGEST_SIZE else RAW_HEADER_SIZE) + 4 * header[4] as nat
  }
}
