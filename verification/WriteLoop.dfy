// The loop of iscsi_write_to_socket in lib/socket.c: PDU after PDU leaves the queue and goes out on the wire.
module WriteLoop {
  import opened Common
  import opened Octets
  import opened PduHeader
  import opened Crc32c
  import opened CrcDigest
  import opened IoVector
  import opened PduWriter
  import opened PduList
  import OutQueue
  import Session

  // What a queued PDU is made of: the header buffer, the part of the task's data that goes with it, and whether the
  // connection is corked behind it.
  datatype Form = Form(outdata: array<byte>, size: nat, offset: nat, len: nat, cursor: Cursor, cork: bool)

  class Writer {
    const context: OutQueue.Context
    const form: map<Pdu, Form>
    const sock: IoVector.Socket
    const mem: array<byte>
    const digester: Digester
    const dataDigest: bool
    const headerDigest: bool
    var current: OutPdu?
    var corked: bool

    // The PDUs that were sent as a whole, in the order in which they left the queue, what was on the wire before, the
    // memory, and the buffers of each task.
    ghost var finished: seq<Pdu>
    ghost const base: seq<byte>
    ghost const image: seq<byte>
    ghost const t: seq<word>
    ghost const cursors: set<Cursor>
    ghost const entries: Cursor -> seq<Iovec>

    // The bytes of each PDU on the wire.
    ghost const bytes: Pdu -> seq<byte>

    // A PDU is in order: its buffer holds a header, and its data is in the task's.
    ghost predicate Fine(p: Pdu)
      reads if p in form then {form[p].outdata} else {}, cursors`iov
    {
      p in form &&
      var f := form[p];
      && RAW_HEADER_SIZE <= f.size && RoundUp4(f.size) <= f.outdata.Length
      && DataOffset(headerDigest, f.outdata[..RoundUp4(f.size)]) <= f.size
      && f.offset + f.len < 0x1_0000_0000 && f.cursor in cursors && Apart(f)
      && |t| == 256 && bytes(p) == StreamOf(f.outdata[..RoundUp4(f.size)], f)
    }

    ghost predicate Apart(f: Form)
      reads cursors`iov
    {
      && f.outdata != mem && f.outdata != digester.crctable as object
      && forall c :: c in cursors && c.iov != null ==> c.iov != f.outdata as object
    }

    ghost function StreamOf(header: seq<byte>, f: Form): seq<byte>
      requires |t| == 256 && RAW_HEADER_SIZE <= |header| && DataOffset(headerDigest, header) <= |header|
    {
      Stream(t, header, PayloadOf(f), dataDigest, DataOffset(headerDigest, header))
    }

    ghost predicate BuffersFit()
      reads set c | c in cursors, set c | c in cursors && c.iov != null :: c.iov, digester.crctable
    {
      && (forall c :: c in cursors ==> Fits(c, mem, digester, t, entries(c)))
      && forall c, d :: c in cursors && d in cursors && c != d && c.iov != null ==> c.iov != d.iov
    }

    // The data of a PDU: what its part of the buffers holds. (If they are too short it is never sent as a whole.)
    ghost function PayloadOf(f: Form): (s: seq<byte>)
      ensures |s| == f.len
    {
      var v := entries(f.cursor);
      if AllFit(v, |image|) && f.offset + f.len <= Total(v) then Held(v, image, f.offset, f.len) else Zeros(f.len)
    }

    ghost function Streams(ps: seq<Pdu>): seq<byte> {
      if ps == [] then [] else Streams(ps[..|ps| - 1]) + bytes(ps[|ps| - 1])
    }

    // The PDU in progress is the one that left the queue last.
    ghost predicate CurrentRight(p: Pdu, o: OutPdu)
      reads o, o.outdata, cursors`iov
    {
      p in form &&
      var f := form[p];
      && o.Valid() && o.t == t && o.stream == bytes(p) && o.Backed(entries(f.cursor), image)
      && o.outdata == f.outdata && o.payloadOffset == f.offset && o.payloadLen == f.len
      && f.cursor in cursors && Apart(f)
    }

    // Between two PDUs the wire holds exactly the finished PDUs; while one is being sent, a prefix of it more.
    ghost predicate WireRight()
      reads this`current, this`finished, context`current, sock`sent, current
      reads if current == null then {} else {current.outdata}
      reads cursors`iov
    {
      && (current == null <==> context.current == null)
      && (current == null ==> sock.sent == base + Streams(finished))
      && (current != null && context.current != null ==>
            && CurrentRight(context.current, current) && current.OnWire(sock)
            && current.before == base + Streams(finished))
    }

    // What left the queue so far, in order.
    ghost function Popped(): seq<Pdu>
      reads this`finished, context`current
    {
      if context.current == null then finished else finished + [context.current]
    }

    // The comparison keeps the parts of Right together where they are only passed on.
    ghost predicate Valid()
      reads *
    {
      Right() == true
    }

    ghost predicate Right()
      reads *
    {
      context.Valid() && |t| == 256 && mem[..] == image && BuffersFit() && WireRight() && QueueFine()
    }

    // Everything is ready for a PDU that has just left the queue.
    ghost predicate Begins(p: Pdu)
      reads *
    {
      BeginsRight(p) == true
    }

    ghost predicate BeginsRight(p: Pdu)
      reads *
    {
      && context.Valid() && |t| == 256 && mem[..] == image && BuffersFit() && QueueFine()
      && context.current == p && Fine(p) && sock.sent == base + Streams(finished)
    }

    ghost predicate QueueFine()
      reads context`queue, set p | p in context.queue && p in form :: form[p].outdata
      reads cursors`iov
    {
      forall p :: p in context.queue ==> Fine(p)
    }

    constructor (context: OutQueue.Context, form: map<Pdu, Form>, sock: IoVector.Socket, mem: array<byte>,
                 digester: Digester, dataDigest: bool, headerDigest: bool, ghost t: seq<word>,
                 ghost cursors: set<Cursor>, ghost entries: Cursor -> seq<Iovec>, ghost bytes: Pdu -> seq<byte>)
      requires context.Valid() && context.current == null && |t| == 256
      requires forall c :: c in cursors ==> Fits(c, mem, digester, t, entries(c))
      requires forall c, d :: c in cursors && d in cursors && c != d && c.iov != null ==> c.iov != d.iov
      ensures this.context == context && this.form == form && this.sock == sock && this.mem == mem
      ensures this.digester == digester && this.dataDigest == dataDigest && this.headerDigest == headerDigest
      ensures this.t == t && this.cursors == cursors && this.entries == entries && this.bytes == bytes
      ensures image == mem[..] && base == sock.sent
      ensures finished == [] && current == null && !corked
      ensures (forall p :: p in context.queue ==> Fine(p)) ==> Valid()
    {
      this.context, this.form, this.sock, this.mem, this.digester := context, form, sock, mem, digester;
      this.dataDigest, this.headerDigest, this.t, this.cursors := dataDigest, headerDigest, t, cursors;
      this.entries, this.bytes := entries, bytes;
      current, corked, finished := null, false, [];
      base, image := sock.sent, mem[..];
      new;
      assert base + [] == base;
    }

    // Nothing is in progress and nothing may begin.
    ghost predicate Stalled()
      reads this`current, this`corked, context`entries, context`expcmdsn, context`maxcmdsn
    {
      && current == null
      && (corked || Session.SendOutcome(context.entries, context.expcmdsn, context.maxcmdsn) != Session.Sent)
    }

    // What is in progress is not complete yet.
    ghost predicate Underway()
      reads this`current, current
    {
      current != null && current.Progress() < |current.stream|
    }

    // No PDU is in progress: decide about the head of the queue and, if it may go, begin with it.
    method StartNext(ghost pdus: set<Pdu>, ghost f0: seq<Pdu>, ghost all0: seq<Pdu>) returns (outcome: Session.Outcome)
      requires Valid() && current == null && Known(pdus) && History(f0, all0)
      modifies context, this`current, context.queue`next, context.waiting`next
      ensures Valid() && context.Abstract() == SendOne(old(context.Abstract()))
      ensures outcome == Session.SendOutcome(old(context.entries), context.expcmdsn, context.maxcmdsn)
      ensures outcome == Session.Sent <==> current != null
      ensures outcome != Session.Sent ==> Stalled()
      ensures |context.queue| == |old(context.queue)| - if outcome == Session.Sent then 1 else 0
      ensures Known(pdus)
      ensures current == null || (fresh(current) && Underway())
      ensures History(f0, all0)
    {
      ghost var f, q := finished, context.queue;
      outcome := PopNext(pdus);
      if outcome == Session.Sent {
        var p: Pdu := context.current;
        Install(p);
        MovedOver(f, p, q, context.queue);
      }
    }

    lemma MovedOver(f: seq<Pdu>, p: Pdu, q: seq<Pdu>, rest: seq<Pdu>)
      requires [p] + rest == q
      ensures (f + [p]) + rest == f + q
    {
    }

    // The popped PDU becomes the one in progress; none of it is out yet.
    method Install(p: Pdu)
      requires Begins(p) && current == null
      modifies this`current
      ensures Valid() && current != null && fresh(current) && Underway()
    {
      current := Prepare(p);
      assert WireRight();
    }

    // The queue's part of it.
    method PopNext(ghost pdus: set<Pdu>) returns (outcome: Session.Outcome)
      requires Valid() && current == null && Known(pdus)
      modifies context, context.queue`next, context.waiting`next
      ensures if context.current == null then Valid() else Begins(context.current)
      ensures context.Abstract() == SendOne(old(context.Abstract()))
      ensures outcome == Session.SendOutcome(old(context.entries), context.expcmdsn, context.maxcmdsn)
      ensures if outcome == Session.Sent then
                context.current != null && [context.current] + context.queue == old(context.queue)
              else
                && context.current == null && context.queue == old(context.queue)
                && context.entries == old(context.entries)
      ensures Known(pdus)
    {
      outcome := PopQueue(pdus);
      if outcome == Session.Sent {
        assert BeginsRight(context.current);
      } else {
        assert Right();
      }
    }

    method PopQueue(ghost pdus: set<Pdu>) returns (outcome: Session.Outcome)
      requires context.Valid() && context.current == null && QueueFine() && Known(pdus)
      modifies context, context.queue`next, context.waiting`next
      ensures context.Valid() && QueueFine() && (context.current != null ==> Fine(context.current))
      ensures context.Abstract() == SendOne(old(context.Abstract()))
      ensures outcome == Session.SendOutcome(old(context.entries), context.expcmdsn, context.maxcmdsn)
      ensures if outcome == Session.Sent then
                context.current != null && [context.current] + context.queue == old(context.queue)
              else
                && context.current == null && context.queue == old(context.queue)
                && context.entries == old(context.entries)
      ensures Known(pdus)
    {
      ghost var q := context.queue;
      outcome := PopFirst(pdus);
      forall p | p in q ensures Fine(p) {
        assert old(Fine(p));
      }
      assert outcome == Session.Sent ==> q[0] in q;
    }

    method PopFirst(ghost pdus: set<Pdu>) returns (outcome: Session.Outcome)
      requires context.Valid() && context.current == null && Known(pdus)
      modifies context, context.queue`next, context.waiting`next
      ensures context.Valid() && context.Abstract() == SendOne(old(context.Abstract())) && Known(pdus)
      ensures outcome == Session.SendOutcome(old(context.entries), context.expcmdsn, context.maxcmdsn)
      ensures if outcome == Session.Sent then
                context.current != null && [context.current] + context.queue == old(context.queue)
              else
                && context.current == null && context.queue == old(context.queue)
                && context.entries == old(context.entries)
    {
      ghost var q := context.queue;
      outcome := context.PopHead();
      assert outcome == Session.Sent ==> [q[0]] + q[1..] == q;
    }

    // The sending state of a PDU, at its beginning.
    method Prepare(p: Pdu) returns (o: OutPdu)
      requires |t| == 256 && mem[..] == image && BuffersFit() && Fine(p)
      ensures o.Progress() == 0 < |o.stream|
      ensures fresh(o) && o.Valid() && o.OnWire(sock) && o.before == sock.sent && o.t == t && o.stream == bytes(p)
      ensures var f := form[p];
              && o.outdata == f.outdata && o.payloadOffset == f.offset && o.payloadLen == f.len
              && o.Backed(entries(f.cursor), image)
    {
      var f := form[p];
      ghost var payload := PayloadOf(f);
      o := new OutPdu(f.outdata, f.size, f.offset, f.len, dataDigest, headerDigest, payload, sock.sent, t);
      PaddedFront(payload);
      NothingYet(sock.sent, o.stream);
    }

    // The PDU in progress goes on where it stopped.
    method Continue(kernel: Kernel) returns (r: Result)
      requires Valid() && current != null
      modifies kernel, sock, mem, current, form[context.current].cursor`offset, form[context.current].cursor`consumed,
               form[context.current].cursor.iov
      ensures Valid() && (r == Done <==> current.Progress() == |current.stream|)
      ensures |sock.sent| >= |old(sock.sent)|
      ensures old(kernel.Willing() && Underway()) && r != Failed ==> |sock.sent| > |old(sock.sent)|
    {
      r := WriteWith(kernel, context.current, current);
    }

    // The same, seen from the queue.
    method WriteWith(kernel: Kernel, p: Pdu, o: OutPdu) returns (r: Result)
      requires |t| == 256 && mem[..] == image && BuffersFit() && CurrentRight(p, o) && o.OnWire(sock) && QueueFine()
      modifies kernel, sock, mem, o, form[p].cursor`offset, form[p].cursor`consumed, form[p].cursor.iov
      ensures mem[..] == image && BuffersFit() && CurrentRight(p, o) && o.OnWire(sock) && QueueFine()
      ensures r == Done <==> o.Progress() == |o.stream|
      ensures |sock.sent| >= |old(sock.sent)|
      ensures old(kernel.Willing() && o.Progress() < |o.stream|) && r != Failed ==> |sock.sent| > |old(sock.sent)|
    {
      r := WriteOn(kernel, p, o);
      forall other | other in context.queue ensures Fine(other) {
        assert old(Fine(other));
      }
    }

    // The same, seen from the PDU and the buffers.
    method WriteOn(kernel: Kernel, p: Pdu, o: OutPdu) returns (r: Result)
      requires |t| == 256 && mem[..] == image && BuffersFit() && CurrentRight(p, o) && o.OnWire(sock)
      modifies kernel, sock, mem, o, form[p].cursor`offset, form[p].cursor`consumed, form[p].cursor.iov
      ensures mem[..] == image && BuffersFit() && CurrentRight(p, o) && o.OnWire(sock)
      ensures r == Done <==> o.Progress() == |o.stream|
      ensures |sock.sent| >= |old(sock.sent)|
      ensures old(kernel.Willing() && o.Progress() < |o.stream|) && r != Failed ==> |sock.sent| > |old(sock.sent)|
    {
      r := WriteIt(kernel, p, o);
      forall c | c in cursors ensures Fits(c, mem, digester, t, entries(c)) {
        assert old(Fits(c, mem, digester, t, entries(c)));
      }
    }

    method WriteIt(kernel: Kernel, p: Pdu, o: OutPdu) returns (r: Result)
      requires |t| == 256 && mem[..] == image && CurrentRight(p, o) && o.OnWire(sock)
      requires Fits(form[p].cursor, mem, digester, t, entries(form[p].cursor))
      modifies kernel, sock, mem, o, form[p].cursor`offset, form[p].cursor`consumed, form[p].cursor.iov
      ensures mem[..] == image && CurrentRight(p, o) && o.OnWire(sock)
      ensures Fits(form[p].cursor, mem, digester, t, entries(form[p].cursor))
      ensures r == Done <==> o.Progress() == |o.stream|
      ensures |sock.sent| >= |old(sock.sent)|
      ensures old(kernel.Willing() && o.Progress() < |o.stream|) && r != Failed ==> |sock.sent| > |old(sock.sent)|
    {
      var cursor := form[p].cursor;
      ghost var v := entries(cursor);
      assert o.Separate(mem, cursor, digester) && o.Ready(mem, cursor, digester, v, image);
      SentLength(sock.sent, o.before, o.stream, o.Progress());
      r := o.Write(kernel, sock, mem, cursor, digester, v, image);
      SentLength(sock.sent, o.before, o.stream, o.Progress());
    }

    lemma AllOut()
      requires Valid() && current != null && current.Progress() == |current.stream|
      ensures Ends()
    {
      assert WireRight();
      assert current.stream[..|current.stream|] == current.stream;
      OneMore(finished, context.current);
      Regroup(base, Streams(finished), bytes(context.current));
    }

    // All of it is on the wire.
    method Complete()
      requires Valid() && current != null && current.Progress() == |current.stream|
      modifies this`current, this`corked, this`finished, context`current
      ensures Valid() && current == null && context.current == null && context.Abstract() == old(context.Abstract())
      ensures finished == old(finished) + [old(context.current)]
      ensures corked == (old(corked) || form[old(context.current)].cork)
    {
      AllOut();
      Release();
    }

    // The wire ends with the PDU in progress.
    ghost predicate Ends()
      reads *
    {
      EndsRight() == true
    }

    ghost predicate EndsRight()
      reads *
    {
      && context.Valid() && |t| == 256 && mem[..] == image && BuffersFit() && QueueFine() && context.current != null
      && context.current in form && sock.sent == base + Streams(finished + [context.current])
    }

    method Release()
      requires Ends() && current != null
      modifies this`current, this`corked, this`finished, context`current
      ensures Valid() && current == null && context.current == null && context.Abstract() == old(context.Abstract())
      ensures finished == old(finished) + [old(context.current)]
      ensures corked == (old(corked) || form[old(context.current)].cork)
    {
      corked := corked || form[context.current].cork;
      finished := finished + [context.current];
      current := null;
      context.CurrentDone();
    }

    // iscsi_write_to_socket: false when the connection is given up. The PDU in progress goes on, then PDUs leave the
    // queue from the front and go out one after the other, each as a whole, until the kernel takes no more or nothing
    // may go. If something may and the kernel takes at least a byte, something goes. `pdus` are the PDUs of this
    // connection.
    method WriteToSocket(kernel: Kernel, ghost pdus: set<Pdu>) returns (ok: bool, ghost pops: nat)
      requires Valid() && Known(pdus)
      modifies this`current, this`corked, this`finished, context, pdus`next, kernel, sock, mem
      modifies current, cursors`offset, cursors`consumed, set c | c in cursors && c.iov != null :: c.iov
      ensures Valid() && History(old(finished), old(Popped() + context.queue))
      ensures base + Streams(finished) <= sock.sent <= base + Streams(Popped())
      ensures context.Abstract() == Sends(old(context.Abstract()), pops)
      ensures (ok ==> Stalled() || current != null) && |sock.sent| >= |old(sock.sent)|
      ensures old(kernel.Willing() && (Underway() || (current == null && !Stalled()))) && ok ==>
                |sock.sent| > |old(sock.sent)|
    {
      pops := 0;
      ok := true;
      var go := true;
      if current != null {
        go, ok := WriteStep(kernel, finished, Popped() + context.queue);
      }
      if go {
        ok, pops := WriteQueue(kernel, pdus);
      }
      WireHolds();
    }

    // What the wire holds: everything finished and, of what left the queue, no more.
    lemma WireHolds()
      requires Valid()
      ensures base + Streams(finished) <= sock.sent <= base + Streams(Popped())
      ensures current == null ==> sock.sent == base + Streams(finished)
    {
      assert WireRight();
      if current != null {
        OneMore(finished, context.current);
        Regroup(base, Streams(finished), bytes(context.current));
      }
    }

    // The loop while no PDU is in progress.
    method WriteQueue(kernel: Kernel, ghost pdus: set<Pdu>) returns (ok: bool, ghost pops: nat)
      requires Valid() && Known(pdus) && current == null
      modifies this`current, this`corked, this`finished, context, pdus`next, kernel, sock, mem
      modifies cursors`offset, cursors`consumed, set c | c in cursors && c.iov != null :: c.iov
      ensures Valid() && Known(pdus) && History(old(finished), old(Popped() + context.queue))
      ensures context.Abstract() == Sends(old(context.Abstract()), pops)
      ensures (ok ==> Stalled() || current != null) && |sock.sent| >= |old(sock.sent)|
      ensures old(kernel.Willing() && !Stalled()) && ok ==> |sock.sent| > |old(sock.sent)|
    {
      pops := 0;
      ok := true;
      var go := true;
      ghost var f0, all0, st0 := finished, Popped() + context.queue, context.Abstract();
      while go && context.outqueue != null
        invariant Valid() && Known(pdus) && (go ==> current == null && ok)
        invariant (!go && ok ==> Stalled() || current != null) && |sock.sent| >= |old(sock.sent)|
        invariant old(kernel.Willing() && !Stalled()) && ok ==>
                    |sock.sent| > |old(sock.sent)| || (go && kernel.Willing() && !Stalled())
        invariant History(f0, all0) && context.Abstract() == Sends(st0, pops)
        decreases |context.queue|, go
      {
        go, ok, pops := TurnOn(kernel, pdus, f0, all0, st0, pops);
      }
    }

    // A turn, seen from the beginning of the loop.
    method TurnOn(kernel: Kernel, ghost pdus: set<Pdu>, ghost f0: seq<Pdu>, ghost all0: seq<Pdu>,
                  ghost st0: Session.State, ghost pops: nat)
      returns (go: bool, ok: bool, ghost pops': nat)
      requires Valid() && Known(pdus) && current == null && History(f0, all0) && context.Abstract() == Sends(st0, pops)
      modifies this`current, this`corked, this`finished, context, pdus`next, kernel, sock, mem
      modifies cursors`offset, cursors`consumed, set c | c in cursors && c.iov != null :: c.iov
      ensures Valid() && Known(pdus) && (go ==> current == null && ok)
      ensures History(f0, all0) && context.Abstract() == Sends(st0, pops')
      ensures (!go && ok ==> Stalled() || current != null) && |sock.sent| >= |old(sock.sent)|
      ensures old(kernel.Willing() && !Stalled()) && ok ==> |sock.sent| > |old(sock.sent)|
      ensures |context.queue| <= |old(context.queue)| && (go ==> |context.queue| < |old(context.queue)|)
    {
      ghost var popped, a := false, context.Abstract();
      go, ok, popped := Turn(kernel, pdus, f0, all0);
      pops' := pops;
      if popped {
        OneMoreSend(st0, pops, a, context.Abstract());
        pops' := pops + 1;
      }
    }

    ghost predicate History(f0: seq<Pdu>, all0: seq<Pdu>)
      reads this`finished, context`current, context`queue
    {
      f0 <= finished && Popped() + context.queue == all0
    }

    // The PDUs on the two lists are among these.
    ghost predicate Known(pdus: set<Pdu>)
      reads context`queue, context`waiting
    {
      && (forall j :: 0 <= j < |context.queue| ==> context.queue[j] in pdus)
      && (forall j :: 0 <= j < |context.waiting| ==> context.waiting[j] in pdus)
    }

    // One turn of the loop: `go` tells whether there is a next one.
    method Turn(kernel: Kernel, ghost pdus: set<Pdu>, ghost f0: seq<Pdu>, ghost all0: seq<Pdu>)
      returns (go: bool, ok: bool, ghost popped: bool)
      requires Valid() && current == null && Known(pdus) && History(f0, all0)
      modifies this`current, this`corked, this`finished, context, context.queue`next, context.waiting`next, kernel
      modifies sock, mem
      modifies cursors`offset, cursors`consumed, set c | c in cursors && c.iov != null :: c.iov
      ensures Valid() && History(f0, all0)
      ensures context.Abstract() == if popped then SendOne(old(context.Abstract()))
                                    else old(context.Abstract())
      ensures go ==> current == null && popped && ok
      ensures !go && ok ==> Stalled() || current != null
      ensures |sock.sent| >= |old(sock.sent)|
      ensures old(kernel.Willing() && !Stalled()) && ok ==> |sock.sent| > |old(sock.sent)|
      ensures |context.queue| == |old(context.queue)| - (if popped then 1 else 0) && Known(pdus)
    {
      go, ok, popped := false, true, false;
      if !corked {
        var outcome := StartNext(pdus, f0, all0);
        popped, ok := outcome == Session.Sent, outcome != Session.BadNumber;
        if outcome == Session.Sent {
          go, ok := WriteStep(kernel, f0, all0);
        }
      }
    }

    // The PDU in progress goes on and is put aside when it is complete.
    method WriteStep(kernel: Kernel, ghost f0: seq<Pdu>, ghost all0: seq<Pdu>) returns (go: bool, ok: bool)
      requires Valid() && current != null && History(f0, all0)
      modifies this`current, this`corked, this`finished, context`current, kernel, sock, mem, current
      modifies form[context.current].cursor`offset, form[context.current].cursor`consumed
      modifies form[context.current].cursor.iov
      ensures Valid() && History(f0, all0) && context.Abstract() == old(context.Abstract())
      ensures if go then ok && current == null else current == old(current)
      ensures |sock.sent| >= |old(sock.sent)|
      ensures old(kernel.Willing() && Underway()) && ok ==> |sock.sent| > |old(sock.sent)|
    {
      var r := Continue(kernel);
      go, ok := r == Done, r != Failed;
      if go {
        Complete();
      }
    }

    lemma OneMore(ps: seq<Pdu>, p: Pdu)
      ensures Streams(ps + [p]) == Streams(ps) + bytes(p)
    {
      assert (ps + [p])[..|ps|] == ps;
    }
  }

  // That many PDUs leave the queue.
  function Sends(st: Session.State, n: nat): Session.State {
    if n == 0 then st else SendOne(Sends(st, n - 1))
  }

  const SEND: Session.State -> Session.State := st => Session.Apply(st, Session.Send)

  function SendOne(st: Session.State): Session.State {
    SEND(st)
  }

  lemma OneMoreSend(st: Session.State, n: nat, a: Session.State, b: Session.State)
    requires a == Sends(st, n) && b == SendOne(a)
    ensures b == Sends(st, n + 1)
  {
  }

  lemma PaddedFront(payload: seq<byte>)
    ensures Padded(payload)[..|payload|] == payload
  {
  }

  lemma SentLength(sent: seq<byte>, before: seq<byte>, stream: seq<byte>, k: nat)
    requires SentSoFar(sent, before, stream, k)
    ensures |sent| == |before| + k && k <= |stream|
  {
  }

  lemma NothingYet(sent: seq<byte>, stream: seq<byte>)
    ensures SentSoFar(sent, sent, stream, 0)
  {
  }
}
