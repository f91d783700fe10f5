// The data of a received PDU that goes to the task's own buffers (lib/socket.c): the receiver of Framing.dfy and the
// cursor of IoVector.dfy together.
module DirectRead {
  import opened Common
  import opened Octets
  import opened CrcDigest
  import opened IoVector
  import Bytes
  import Framing
  import PduHeader

  // What the buffers hold of a data segment of which `done` bytes have arrived.
  ghost predicate BuffersHold(v: seq<Iovec>, mem: seq<byte>, offset: nat, body: seq<byte>, done: nat) {
    && offset + done <= Total(v) && done <= |body| && AllFit(v, |mem|) && Inside(Addresses(v), |mem|)
    && Load(mem, Addresses(v)[offset..offset + done]) == body[..done]
  }

  // The padding goes nowhere.
  method SkipPadding(sock: IoVector.Socket, count: nat, limits: seq<int>) returns (done: nat)
    modifies sock`arriving
    ensures done <= count && done <= |old(sock.arriving)| && sock.arriving == old(sock.arriving)[done..]
    ensures |old(sock.arriving)| >= count && |limits| >= count && AllPositive(limits) ==> done == count
  {
    done := 0;
    ghost var a := sock.arriving;
    for i := 0 to |limits|
      invariant done <= count && done <= |a| && sock.arriving == a[done..]
      invariant |a| >= count && AllPositive(limits) ==> done >= Min(i, count)
    {
      if done < count {
        var n := sock.Recv(count - done, limits[i]);
        done := done + n;
      }
    }
  }

  // The data segment of a PDU with header h, in as many calls as it takes: first the data, through the cursor, then the
  // padding. `behind` is what follows in the stream.
  method ReadDirect(cursor: Cursor, sock: IoVector.Socket, mem: array<byte>, digester: Digester, ghost t: seq<word>,
                    ghost v: seq<Iovec>, h: seq<Bytes.byte>, offset: nat, limits: seq<int>, padLimits: seq<int>,
                    ghost body: seq<byte>, ghost behind: seq<byte>)
    returns (done: nat)
    requires |h| >= PduHeader.RAW_HEADER_SIZE && |body| == Framing.BodySize(h) && sock.arriving == body + behind
    requires Fits(cursor, mem, digester, t, v) && cursor.iov != null && cursor.offset <= offset
    requires NoRepeats(Addresses(v))
    requires offset + PduHeader.DataSize(h) < 0x1_0000_0000 && Holds(v, offset, PduHeader.DataSize(h))
    modifies cursor`offset, cursor`consumed, cursor.iov, mem, sock
    ensures Fits(cursor, mem, digester, t, v) && done <= |body| && sock.arriving == (body + behind)[done..]
    ensures BuffersHold(v, mem[..], offset, body, Min(done, PduHeader.DataSize(h)))
    ensures |limits| >= |body| && |padLimits| >= |body| && AllPositive(limits) && AllPositive(padLimits) ==>
              done == |body| && sock.arriving == behind
  {
    var size := PduHeader.DataSize(h);
    ghost var s0 := Now(sock, mem, None);
    var d;
    done, d := MoveInTurns(cursor, sock, mem, digester, t, v, offset, size, None, false, limits);
    ghost var s1 := Now(sock, mem, d);
    HoldsWhatArrived(t, v, offset, done, s0, s1, body, behind);
    if done < size {
      return;
    }
    ghost var m := mem[..];
    var k := SkipPadding(sock, Framing.PaddingSize(h), padLimits);
    assert mem[..] == m;
    assert (body + behind)[size..][k..] == (body + behind)[size + k..];
    done := size + k;
    assert (body + behind)[|body|..] == behind;
  }

  lemma HoldsWhatArrived(t: seq<word>, v: seq<Iovec>, offset: nat, done: nat, s0: Picture, s1: Picture, body: seq<byte>,
                         behind: seq<byte>)
    requires MovedSoFar(t, v, offset, done, false, s0, s1) && NoRepeats(Addresses(v)) && AllFit(v, |s0.mem|)
    requires s0.arriving == body + behind && done <= |body|
    ensures BuffersHold(v, s1.mem, offset, body, done) && s1.arriving == (body + behind)[done..]
  {
    var a := Addresses(v)[offset..offset + done];
    assert IsPart(a, v, offset, done);
    AddressesInside(v, |s0.mem|);
    PartRepeatsNothing(Addresses(v), offset, offset + done);
    ReadDeliversArriving(t, s0, s1, a);
    assert (body + behind)[..done] == body[..done];
  }

  // When all of it has arrived, the buffers hold what a one-shot parse of the stream delivers, without the padding.
  lemma BuffersHoldDelivery(e: Framing.Env, before: seq<Framing.Delivered>, h: seq<Bytes.byte>, v: seq<Iovec>,
                            mem: seq<byte>, offset: nat, body: seq<byte>)
    requires |h| >= PduHeader.RAW_HEADER_SIZE && |body| == Framing.BodySize(h) && Framing.IsDirect(e, before, h)
    requires BuffersHold(v, mem, offset, body, PduHeader.DataSize(h))
    ensures Framing.Delivery(e, before, h, Numbers(body)).data
         == Numbers(Load(mem, Addresses(v)[offset..offset + PduHeader.DataSize(h)]))
  {
    assert Numbers(body)[..PduHeader.DataSize(h)] == Numbers(body[..PduHeader.DataSize(h)]);
  }
}
