// Receiving: iscsi_read_from_socket in lib/socket.c, without data digest.
//
// The bytes of the connection arrive in pieces of any size. The receiver keeps a half-read PDU between calls. What it
// hands on must depend on the bytes alone, not on the pieces they came in.
module Framing {
  import opened Common
  import opened Bytes
  import opened PduHeader

  // A PDU as it is handed on. Data of a read whose task has buffers of its own goes there directly, without padding;
  // all other data is kept with its padding.
  datatype Delivered = Delivered(hdr: seq<byte>, data: seq<byte>, direct: bool)

  // What the task that a header belongs to offers for its data: no buffers, buffers that the data does not fit in, or
  // buffers that it fits in.
  datatype Buffers = NoBuffer | Unfit | Fit

  // What the receiver asks the rest of the library, given the PDUs handed on before: the buffers for a header, whether
  // iscsi_process_pdu takes a PDU, and whether reading goes on after it.
  datatype Env = Env(
    headerSize: nat,
    maxData: nat,
    buffers: (seq<Delivered>, seq<byte>) -> Buffers,
    accept: (seq<Delivered>, Delivered) -> bool,
    more: seq<Delivered> -> bool)

  predicate ValidEnv(e: Env) {
    e.headerSize >= RAW_HEADER_SIZE
  }

  // iscsi_get_pdu_padding_size
  function PaddingSize(h: seq<byte>): (n: nat)
    requires |h| >= RAW_HEADER_SIZE
    ensures n < 4 && (DataSize(h) + n) % 4 == 0
  {
    RoundUp4(DataSize(h)) - DataSize(h)
  }

  function BodySize(h: seq<byte>): nat
    requires |h| >= RAW_HEADER_SIZE
  {
    DataSize(h) + PaddingSize(h)
  }

  // ----- the one-shot parse of a byte sequence

  // The PDUs handed on, the bytes of a PDU that is not complete, and whether the connection was given up.
  datatype Parsed = Parsed(pdus: seq<Delivered>, rest: seq<byte>, failed: bool)

  // A header that makes the receiver give up: too much data announced, or no room for it in the task's buffers.
  predicate BadHeader(e: Env, done: seq<Delivered>, h: seq<byte>)
    requires |h| >= RAW_HEADER_SIZE
  {
    DataSize(h) > e.maxData || (DataSize(h) > 0 && e.buffers(done, h) == Unfit)
  }

  predicate IsDirect(e: Env, done: seq<Delivered>, h: seq<byte>)
    requires |h| >= RAW_HEADER_SIZE
  {
    BodySize(h) > 0 && e.buffers(done, h) != NoBuffer
  }

  // The PDU made of a header and the data with padding behind it.
  function Delivery(e: Env, done: seq<Delivered>, h: seq<byte>, body: seq<byte>): Delivered
    requires |h| >= RAW_HEADER_SIZE && |body| == BodySize(h)
  {
    Delivered(h, if IsDirect(e, done, h) then body[..DataSize(h)] else body, IsDirect(e, done, h))
  }

  predicate Complete(e: Env, s: seq<byte>)
    requires ValidEnv(e)
  {
    |s| >= e.headerSize && |s| >= e.headerSize + BodySize(s[..e.headerSize])
  }

  function First(e: Env, done: seq<Delivered>, s: seq<byte>): Delivered
    requires ValidEnv(e) && Complete(e, s)
  {
    Delivery(e, done, s[..e.headerSize], s[e.headerSize..e.headerSize + BodySize(s[..e.headerSize])])
  }

  function Behind(e: Env, s: seq<byte>): (r: seq<byte>)
    requires ValidEnv(e) && Complete(e, s)
    ensures |r| < |s|
  {
    s[e.headerSize + BodySize(s[..e.headerSize])..]
  }

  predicate Steps(e: Env, done: seq<Delivered>, s: seq<byte>)
    requires ValidEnv(e)
  {
    Complete(e, s) && !BadHeader(e, done, s[..e.headerSize]) && e.accept(done, First(e, done, s))
  }

  function Parse(e: Env, done: seq<Delivered>, s: seq<byte>): (p: Parsed)
    requires ValidEnv(e)
    ensures |p.rest| <= |s|
    decreases |s|
  {
    if |s| < e.headerSize then Parsed(done, s, false)
    else if BadHeader(e, done, s[..e.headerSize]) then Parsed(done, s, true)
    else if !Complete(e, s) then Parsed(done, s, false)
    else if !e.accept(done, First(e, done, s)) then Parsed(done + [First(e, done, s)], [], true)
    else Parse(e, done + [First(e, done, s)], Behind(e, s))
  }

  // A parse can be interrupted anywhere: going on from the incomplete rest gives what parsing everything at once gives.
  lemma {:induction false} ParseResumes(e: Env, done: seq<Delivered>, a: seq<byte>, b: seq<byte>)
    requires ValidEnv(e) && !Parse(e, done, a).failed
    ensures Parse(e, done, a + b) == Parse(e, Parse(e, done, a).pdus, Parse(e, done, a).rest + b)
    decreases |a|
  {
    if |a| >= e.headerSize {
      assert (a + b)[..e.headerSize] == a[..e.headerSize];
    }
    if Steps(e, done, a) {
      SameFirst(e, done, a, b);
      ParseResumes(e, done + [First(e, done, a)], Behind(e, a), b);
    }
  }

  lemma {:induction false} ParseGrows(e: Env, done: seq<Delivered>, s: seq<byte>)
    requires ValidEnv(e)
    ensures done <= Parse(e, done, s).pdus
    decreases |s|
  {
    if Steps(e, done, s) {
      ParseGrows(e, done + [First(e, done, s)], Behind(e, s));
    }
  }

  // Once given up, whatever follows.
  lemma {:induction false} FailureStays(e: Env, done: seq<Delivered>, a: seq<byte>, b: seq<byte>)
    requires ValidEnv(e) && Parse(e, done, a).failed
    ensures Parse(e, done, a + b).failed && Parse(e, done, a + b).pdus == Parse(e, done, a).pdus
    decreases |a|
  {
    assert (a + b)[..e.headerSize] == a[..e.headerSize];
    if !BadHeader(e, done, a[..e.headerSize]) {
      SameFirst(e, done, a, b);
      if e.accept(done, First(e, done, a)) {
        FailureStays(e, done + [First(e, done, a)], Behind(e, a), b);
      }
    }
  }

  lemma SameFirst(e: Env, done: seq<Delivered>, a: seq<byte>, b: seq<byte>)
    requires ValidEnv(e) && Complete(e, a)
    ensures Complete(e, a + b) && First(e, done, a + b) == First(e, done, a) && Behind(e, a + b) == Behind(e, a) + b
  {
    var end := e.headerSize + BodySize(a[..e.headerSize]);
    assert (a + b)[..e.headerSize] == a[..e.headerSize];
    assert (a + b)[e.headerSize..end] == a[e.headerSize..end];
  }

  // A rest that the parse could not complete stays as it is.
  lemma {:induction false} RestIsStuck(e: Env, done: seq<Delivered>, s: seq<byte>)
    requires ValidEnv(e) && !Parse(e, done, s).failed
    ensures var p := Parse(e, done, s); Parse(e, p.pdus, p.rest) == p
    decreases |s|
  {
    if Steps(e, done, s) {
      RestIsStuck(e, done + [First(e, done, s)], Behind(e, s));
    }
  }

  // Waiting for more: what that says about the header, and when it is the case.
  lemma StuckMeans(e: Env, done: seq<Delivered>, s: seq<byte>)
    requires ValidEnv(e) && Parse(e, done, s) == Parsed(done, s, false) && |s| >= e.headerSize
    ensures !BadHeader(e, done, s[..e.headerSize]) && |s| < e.headerSize + BodySize(s[..e.headerSize])
  {
  }

  lemma StuckWhen(e: Env, done: seq<Delivered>, s: seq<byte>)
    requires ValidEnv(e)
    requires |s| >= e.headerSize ==>
               !BadHeader(e, done, s[..e.headerSize]) && |s| < e.headerSize + BodySize(s[..e.headerSize])
    ensures Parse(e, done, s) == Parsed(done, s, false)
  {
  }

  // ----- parsing what a sender wrote

  // A well-formed PDU, and its bytes.
  predicate WellFormed(e: Env, done: seq<Delivered>, h: seq<byte>, body: seq<byte>) {
    && |h| == e.headerSize >= RAW_HEADER_SIZE && |body| == BodySize(h)
    && !BadHeader(e, done, h) && e.accept(done, Delivery(e, done, h, body))
  }

  datatype Frame = Frame(hdr: seq<byte>, body: seq<byte>)

  function Encode(fs: seq<Frame>): seq<byte> {
    if fs == [] then [] else fs[0].hdr + fs[0].body + Encode(fs[1..])
  }

  ghost predicate AllWellFormed(e: Env, done: seq<Delivered>, fs: seq<Frame>)
    requires ValidEnv(e)
    decreases |fs|
  {
    fs == [] ||
    (&& WellFormed(e, done, fs[0].hdr, fs[0].body)
     && AllWellFormed(e, done + [Delivery(e, done, fs[0].hdr, fs[0].body)], fs[1..]))
  }

  function Deliveries(e: Env, done: seq<Delivered>, fs: seq<Frame>): seq<Delivered>
    requires ValidEnv(e) && AllWellFormed(e, done, fs)
    decreases |fs|
  {
    if fs == [] then done
    else Deliveries(e, done + [Delivery(e, done, fs[0].hdr, fs[0].body)], fs[1..])
  }

  // Every stream of well-formed PDUs is taken apart into exactly these PDUs.
  lemma {:induction false} ParseOfEncode(e: Env, done: seq<Delivered>, fs: seq<Frame>)
    requires ValidEnv(e) && AllWellFormed(e, done, fs)
    ensures Parse(e, done, Encode(fs)) == Parsed(Deliveries(e, done, fs), [], false)
    decreases |fs|
  {
    if fs != [] {
      var h, b, s := fs[0].hdr, fs[0].body, Encode(fs);
      assert s[..e.headerSize] == h;
      assert s[e.headerSize..e.headerSize + |b|] == b;
      assert s[e.headerSize + |b|..] == Encode(fs[1..]);
      ParseOfEncode(e, done + [Delivery(e, done, h, b)], fs[1..]);
    }
  }

  // ----- the receiver

  class Socket {
    // What is still to arrive, and what the kernel answers to the next calls: the most it hands out, 0 for a closed
    // connection, negative for EAGAIN. When it has no more answers it would block.
    var arriving: seq<byte>
    var answers: seq<int>

    constructor (arriving: seq<byte>, answers: seq<int>) {
      this.arriving, this.answers := arriving, answers;
    }

    // The next call gets something.
    predicate Willing()
      reads this
    {
      |arriving| > 0 && |answers| > 0 && answers[0] > 0
    }

    method Recv(count: nat) returns (n: int, bytes: seq<byte>)
      requires count > 0
      modifies this
      ensures n <= count && |bytes| == (if n > 0 then n else 0) && old(arriving) == bytes + arriving
      ensures old(Willing()) ==> n > 0
      ensures 0 !in old(answers) ==> 0 !in answers && n != 0
    {
      var limit := if |answers| > 0 then answers[0] else -1;
      answers := if |answers| > 0 then answers[1..] else [];
      if limit < 0 || (|arriving| == 0 && limit > 0) {
        return -1, [];
      }
      n := if limit < count then limit else count;
      n := if n < |arriving| then n else |arriving|;
      bytes, arriving := arriving[..n], arriving[n..];
    }
  }

  // struct iscsi_in_pdu: the header and data read so far; `user` is what went to the task's own buffers.
  class InPdu {
    const hdr: array<byte>
    var hdrPos: nat
    var data: array?<byte>
    var dataPos: nat
    var user: seq<byte>

    constructor (headerSize: nat)
      ensures hdr.Length == headerSize && fresh(hdr) && hdrPos == 0 && data == null && dataPos == 0 && user == []
    {
      hdr := new byte[headerSize](_ => 0);
      hdrPos, data, dataPos, user := 0, null, 0, [];
    }

    // The PDU holds the bytes `rest` of the stream. Padding that went past user buffers is not kept.
    ghost predicate Holds(e: Env, done: seq<Delivered>, rest: seq<byte>)
      reads this, hdr, data
    {
      && ValidEnv(e) && hdr.Length == e.headerSize
      && |rest| == hdrPos + dataPos && hdrPos <= e.headerSize && (dataPos > 0 ==> hdrPos == e.headerSize)
      && hdr[..hdrPos] == rest[..hdrPos]
      && (hdrPos < e.headerSize ==> data == null && user == [])
      && (hdrPos == e.headerSize ==> BodyHeld(e, done, rest[e.headerSize..]))
    }

    // Header bytes that arrived: rest' is the stream so far with them.
    method PutHeader(ghost e: Env, ghost done: seq<Delivered>, bytes: seq<byte>, ghost rest': seq<byte>)
      requires |bytes| <= |rest'| && Holds(e, done, rest'[..|rest'| - |bytes|]) && rest'[|rest'| - |bytes|..] == bytes
      requires hdrPos < e.headerSize && hdrPos + |bytes| <= e.headerSize
      modifies this`hdrPos, hdr
      ensures Holds(e, done, rest') && hdrPos == old(hdrPos) + |bytes|
    {
      ghost var rest := rest'[..|rest'| - |bytes|];
      forall i | 0 <= i < |bytes| {
        hdr[hdrPos + i] := bytes[i];
      }
      hdrPos := hdrPos + |bytes|;
      assert rest' == rest + bytes;
      assert hdr[..hdrPos] == rest';
    }

    // Bytes of the data segment: into the task's buffers, past them (padding), or into memory of its own.
    method PutUser(ghost e: Env, ghost done: seq<Delivered>, bytes: seq<byte>, ghost rest': seq<byte>)
      requires |bytes| <= |rest'| && Holds(e, done, rest'[..|rest'| - |bytes|]) && rest'[|rest'| - |bytes|..] == bytes
      requires hdrPos == e.headerSize && IsDirect(e, done, hdr[..]) && dataPos + |bytes| <= DataSize(hdr[..])
      modifies this`user, this`dataPos
      ensures Holds(e, done, rest') && dataPos == old(dataPos) + |bytes|
    {
      Continues(rest'[..|rest'| - |bytes|], bytes, rest', e.headerSize);
      user, dataPos := user + bytes, dataPos + |bytes|;
    }

    method SkipPadding(ghost e: Env, ghost done: seq<Delivered>, bytes: seq<byte>, ghost rest': seq<byte>)
      requires |bytes| <= |rest'| && Holds(e, done, rest'[..|rest'| - |bytes|]) && rest'[|rest'| - |bytes|..] == bytes
      requires hdrPos == e.headerSize && IsDirect(e, done, hdr[..])
      requires DataSize(hdr[..]) <= dataPos && dataPos + |bytes| <= BodySize(hdr[..])
      modifies this`dataPos
      ensures Holds(e, done, rest') && dataPos == old(dataPos) + |bytes|
    {
      Continues(rest'[..|rest'| - |bytes|], bytes, rest', e.headerSize);
      dataPos := dataPos + |bytes|;
    }

    method Store(ghost e: Env, ghost done: seq<Delivered>, bytes: seq<byte>, ghost rest': seq<byte>, direct: bool)
      requires |bytes| <= |rest'| && Holds(e, done, rest'[..|rest'| - |bytes|]) && rest'[|rest'| - |bytes|..] == bytes
      requires hdrPos == e.headerSize && direct == IsDirect(e, done, hdr[..]) && dataPos + |bytes| <= BodySize(hdr[..])
      requires direct && dataPos < DataSize(hdr[..]) ==> dataPos + |bytes| <= DataSize(hdr[..])
      modifies this`user, this`data, this`dataPos, data
      ensures data == old(data) || fresh(data)
      ensures Holds(e, done, rest') && dataPos == old(dataPos) + |bytes| && hdr[..] == old(hdr[..])
    {
      if !direct {
        PutData(e, done, bytes, rest');
      } else if BodySize(hdr[..]) - dataPos > PaddingSize(hdr[..]) {
        PutUser(e, done, bytes, rest');
      } else {
        SkipPadding(e, done, bytes, rest');
      }
    }

    method PutData(ghost e: Env, ghost done: seq<Delivered>, bytes: seq<byte>, ghost rest': seq<byte>)
      requires |bytes| <= |rest'| && Holds(e, done, rest'[..|rest'| - |bytes|]) && rest'[|rest'| - |bytes|..] == bytes
      requires hdrPos == e.headerSize && !IsDirect(e, done, hdr[..]) && dataPos + |bytes| <= BodySize(hdr[..])
      modifies this`data, this`dataPos, data
      ensures data == old(data) || fresh(data)
      ensures Holds(e, done, rest') && dataPos == old(dataPos) + |bytes| && hdr[..] == old(hdr[..])
    {
      Continues(rest'[..|rest'| - |bytes|], bytes, rest', e.headerSize);
      ghost var h := hdr[..];
      if data == null {
        data := new byte[BodySize(hdr[..])](_ => 0);
      }
      forall i | 0 <= i < |bytes| {
        data[dataPos + i] := bytes[i];
      }
      dataPos := dataPos + |bytes|;
      assert hdr[..] == h;
      assert data[..dataPos] == rest'[e.headerSize..];
    }

    ghost predicate BodyHeld(e: Env, done: seq<Delivered>, body: seq<byte>)
      requires ValidEnv(e) && hdr.Length == e.headerSize
      reads this, hdr, data
    {
      && |body| == dataPos <= BodySize(hdr[..])
      && (IsDirect(e, done, hdr[..]) ==> data == null && user == body[..Min(dataPos, DataSize(hdr[..]))])
      && (!IsDirect(e, done, hdr[..]) ==> user == [])
      && (!IsDirect(e, done, hdr[..]) && data == null ==> dataPos == 0)
      && (!IsDirect(e, done, hdr[..]) && data != null ==>
          data != hdr && data.Length == BodySize(hdr[..]) && data[..dataPos] == body)
    }
  }

  // How a turn of the loop ends: waiting for more bytes, one PDU handed on, the connection closed by the other side, or
  // given up.
  datatype Turn = Waiting | HandedOn | Closed | GaveUp

  class Receiver {
    const env: Env
    const sock: Socket
    var incoming: InPdu?
    var delivered: seq<Delivered>
    var broken: bool

    // All bytes received, and those of the PDU that is not complete.
    ghost var consumed: seq<byte>
    ghost var rest: seq<byte>

    constructor (env: Env, sock: Socket)
      requires ValidEnv(env)
      ensures this.env == env && this.sock == sock && Valid() && consumed == [] && incoming == null && !broken
    {
      this.env, this.sock := env, sock;
      incoming, delivered, broken, consumed, rest := null, [], false, [], [];
    }

    // What was handed on and what is kept is what a one-shot parse of all received bytes gives.
    ghost predicate Valid()
      reads this, incoming, if incoming != null then {incoming.hdr} else {}
      reads if incoming != null then {incoming.data} else {}
    {
      && ValidEnv(env) && InStep()
      && (!broken && incoming == null ==> rest == [])
      && (!broken && incoming != null ==> incoming.Holds(env, delivered, rest))
    }

    ghost predicate InStep()
      requires ValidEnv(env)
      reads this`delivered, this`broken, this`consumed, this`rest
    {
      if broken then Parse(env, [], consumed).failed && Parse(env, [], consumed).pdus == delivered
      else Parse(env, [], consumed) == Parsed(delivered, rest, false)
    }

    // The objects of the half-read PDU.
    ghost function HalfRead(): set<object>
      reads this, incoming
    {
      if incoming == null then {}
      else if incoming.data == null then {incoming, incoming.hdr}
      else {incoming, incoming.hdr, incoming.data}
    }

    // Account for received bytes.
    ghost method Take(bytes: seq<byte>)
      requires ValidEnv(env) && !broken && InStep()
      modifies this`consumed, this`rest
      ensures consumed == old(consumed) + bytes && rest == old(rest) + bytes
      ensures Parse(env, [], consumed) == Parse(env, delivered, rest)
    {
      ParseResumes(env, [], consumed, bytes);
      consumed, rest := consumed + bytes, rest + bytes;
    }

    // The header part of a turn: true when the header is there.
    method ReadHeader(pdu: InPdu) returns (complete: bool, closed: bool)
      requires ValidEnv(env) && !broken && InStep() && pdu.Holds(env, delivered, rest)
      modifies sock, pdu`hdrPos, pdu.hdr, this`consumed, this`rest
      ensures pdu.Holds(env, delivered, rest) && consumed + sock.arriving == old(consumed + sock.arriving)
      ensures complete <==> pdu.hdrPos == env.headerSize
      ensures !complete ==> InStep()
      ensures complete ==> Parse(env, [], consumed) == Parse(env, delivered, rest)
      ensures complete ==> InStep() || (pdu.dataPos == 0 && |sock.arriving| < |old(sock.arriving)|)
      ensures |sock.arriving| <= |old(sock.arriving)|
      ensures old(sock.Willing()) ==>
                |sock.arriving| < |old(sock.arriving)| || (complete && InStep() && sock.Willing())
      ensures 0 !in old(sock.answers) ==> 0 !in sock.answers && !closed
    {
      if pdu.hdrPos == env.headerSize {
        RestIsStuck(env, [], consumed);
        return true, false;
      }
      var n, bytes := sock.Recv(env.headerSize - pdu.hdrPos);
      if n <= 0 {
        return false, n == 0;
      }
      AbsorbHeader(pdu, bytes);
      Regroup(old(consumed), bytes, sock.arriving);
      return pdu.hdrPos == env.headerSize, false;
    }

    method AbsorbHeader(pdu: InPdu, bytes: seq<byte>)
      requires ValidEnv(env) && !broken && InStep() && pdu.Holds(env, delivered, rest)
      requires pdu.hdrPos < env.headerSize && pdu.hdrPos + |bytes| <= env.headerSize
      modifies pdu`hdrPos, pdu.hdr, this`consumed, this`rest
      ensures pdu.Holds(env, delivered, rest) && consumed == old(consumed) + bytes
      ensures pdu.hdrPos == old(pdu.hdrPos) + |bytes|
      ensures Parse(env, [], consumed) == Parse(env, delivered, rest)
      ensures pdu.hdrPos < env.headerSize ==> InStep()
    {
      Take(bytes);
      assert rest[..|rest| - |bytes|] == old(rest) && rest[|rest| - |bytes|..] == bytes;
      pdu.PutHeader(env, delivered, bytes, rest);
      if pdu.hdrPos < env.headerSize {
        StuckWhen(env, delivered, rest);
      }
    }

    // The data part of a turn: it stores what arrives where it belongs.
    method ReadBody(pdu: InPdu) returns (t: Turn)
      requires ValidEnv(env) && !broken && pdu.Holds(env, delivered, rest) && pdu.hdrPos == env.headerSize
      requires InStep()
      modifies sock, pdu`data, pdu`dataPos, pdu`user, pdu.data, this`consumed, this`rest
      ensures pdu.Holds(env, delivered, rest) && consumed + sock.arriving == old(consumed + sock.arriving)
      ensures t == HandedOn || t == Waiting || t == Closed
      ensures pdu.data == old(pdu.data) || fresh(pdu.data)
      ensures Parse(env, [], consumed) == Parse(env, delivered, rest)
      ensures t == HandedOn <==> pdu.dataPos == BodySize(pdu.hdr[..])
      ensures t != HandedOn ==> InStep()
      ensures |sock.arriving| <= |old(sock.arriving)| && (t == HandedOn ==> |sock.arriving| < |old(sock.arriving)|)
      ensures old(sock.Willing()) ==> |sock.arriving| < |old(sock.arriving)|
      ensures 0 !in old(sock.answers) ==> 0 !in sock.answers && t != Closed
      ensures pdu.hdr[..] == old(pdu.hdr[..])
    {
      RestIsStuck(env, [], consumed);
      StuckMeans(env, delivered, rest);
      var h := pdu.hdr[..];
      assert rest[..env.headerSize] == h;
      var direct := env.buffers(delivered, h) != NoBuffer;
      var n, bytes := Fetch(pdu.dataPos, h, direct);
      if n <= 0 {
        return if n == 0 then Closed else Waiting;
      }
      Absorb(pdu, h, bytes, direct);
      Regroup(old(consumed), bytes, sock.arriving);
      return if pdu.dataPos < BodySize(h) then Waiting else HandedOn;
    }

    // recv() or readv() for the data from `dataPos` on; padding is asked for separately when the data goes to the task.
    method Fetch(dataPos: nat, h: seq<byte>, direct: bool) returns (n: int, bytes: seq<byte>)
      requires |h| >= RAW_HEADER_SIZE && dataPos < BodySize(h)
      modifies sock
      ensures |bytes| == (if n > 0 then n else 0) && old(sock.arriving) == bytes + sock.arriving
      ensures dataPos + |bytes| <= BodySize(h)
      ensures direct && dataPos < DataSize(h) ==> dataPos + |bytes| <= DataSize(h)
      ensures old(sock.Willing()) ==> n > 0
      ensures 0 !in old(sock.answers) ==> 0 !in sock.answers && n != 0
    {
      var count := BodySize(h) - dataPos;
      n, bytes := sock.Recv(if direct && count > PaddingSize(h) then count - PaddingSize(h) else count);
    }

    method Absorb(pdu: InPdu, h: seq<byte>, bytes: seq<byte>, direct: bool)
      requires ValidEnv(env) && !broken && InStep() && pdu.Holds(env, delivered, rest) && pdu.hdrPos == env.headerSize
      requires h == pdu.hdr[..] && direct == (env.buffers(delivered, h) != NoBuffer)
      requires pdu.dataPos + |bytes| <= BodySize(h)
      requires direct && pdu.dataPos < DataSize(h) ==> pdu.dataPos + |bytes| <= DataSize(h)
      requires pdu.dataPos < BodySize(h) && !BadHeader(env, delivered, h)
      modifies pdu`data, pdu`dataPos, pdu`user, pdu.data, this`consumed, this`rest
      ensures pdu.Holds(env, delivered, rest) && pdu.hdr[..] == h && consumed == old(consumed) + bytes
      ensures pdu.data == old(pdu.data) || fresh(pdu.data)
      ensures pdu.dataPos == old(pdu.dataPos) + |bytes| && Parse(env, [], consumed) == Parse(env, delivered, rest)
      ensures pdu.dataPos < BodySize(h) ==> InStep()
    {
      Take(bytes);
      assert rest[..|rest| - |bytes|] == old(rest) && rest[|rest| - |bytes|..] == bytes;
      pdu.Store(env, delivered, bytes, rest, direct);
      if pdu.dataPos < BodySize(h) {
        assert rest[..env.headerSize] == h;
        StuckWhen(env, delivered, rest);
      }
    }

    // A complete PDU goes to iscsi_process_pdu.
    method HandOn(pdu: InPdu) returns (t: Turn)
      requires ValidEnv(env) && !broken && pdu.Holds(env, delivered, rest) && pdu.hdrPos == env.headerSize
      requires pdu.dataPos == BodySize(pdu.hdr[..]) && !BadHeader(env, delivered, pdu.hdr[..])
      requires Parse(env, [], consumed) == Parse(env, delivered, rest)
      modifies this`incoming, this`delivered, this`broken, this`rest
      ensures InStep() && incoming == null && rest == []
      ensures t == if broken then GaveUp else HandedOn
    {
      var h := pdu.hdr[..];
      var direct := IsDirect(env, delivered, h);
      var data := if direct then pdu.user else if pdu.data != null then pdu.data[..] else [];
      ghost var body := rest[env.headerSize..];
      assert rest[..env.headerSize] == h && Complete(env, rest);
      assert rest[env.headerSize..env.headerSize + BodySize(h)] == body;
      assert First(env, delivered, rest) == Delivered(h, data, direct);
      assert Behind(env, rest) == [];
      var d := Delivered(h, data, direct);
      incoming, broken := null, !env.accept(delivered, d);
      delivered, rest := delivered + [d], [];
      return if broken then GaveUp else HandedOn;
    }

    // One turn of the loop of iscsi_read_from_socket.
    method TakeTurn() returns (t: Turn)
      requires Valid() && !broken
      modifies this, sock, HalfRead()
      ensures Valid() && consumed + sock.arriving == old(consumed + sock.arriving)
      ensures broken == (t == GaveUp) && (t == HandedOn ==> incoming == null)
      ensures |sock.arriving| <= |old(sock.arriving)| && (t == HandedOn ==> |sock.arriving| < |old(sock.arriving)|)
      ensures old(sock.Willing()) ==> |sock.arriving| < |old(sock.arriving)|
      ensures 0 !in old(sock.answers) ==> 0 !in sock.answers && t != Closed
      ensures fresh(HalfRead() - old(HalfRead()))
    {
      if incoming == null {
        incoming := new InPdu(env.headerSize);
      }
      var pdu := incoming;
      var complete, closed := ReadHeader(pdu);
      if !complete {
        return if closed then Closed else Waiting;
      }
      t := Proceed(pdu);
    }

    // A turn from the complete header on.
    method Proceed(pdu: InPdu) returns (t: Turn)
      requires ValidEnv(env) && !broken && pdu == incoming && pdu.Holds(env, delivered, rest)
      requires pdu.hdrPos == env.headerSize
      requires Parse(env, [], consumed) == Parse(env, delivered, rest) && (InStep() || pdu.dataPos == 0)
      modifies sock, pdu`data, pdu`dataPos, pdu`user, pdu.data
      modifies this`consumed, this`rest, this`incoming, this`delivered, this`broken
      ensures Valid() && consumed + sock.arriving == old(consumed + sock.arriving)
      ensures broken == (t == GaveUp) && (incoming == pdu || incoming == null) && (t == HandedOn ==> incoming == null)
      ensures pdu.data == old(pdu.data) || fresh(pdu.data)
      ensures |sock.arriving| <= |old(sock.arriving)|
      ensures old(InStep()) && (t == HandedOn || old(sock.Willing())) ==> |sock.arriving| < |old(sock.arriving)|
      ensures 0 !in old(sock.answers) ==> 0 !in sock.answers && t != Closed
    {
      var h := pdu.hdr[..];
      assert rest[..env.headerSize] == h;
      if InStep() {
        RestIsStuck(env, [], consumed);
        StuckMeans(env, delivered, rest);
      }
      if DataSize(h) > env.maxData || (pdu.dataPos < DataSize(h) && env.buffers(delivered, h) == Unfit) {
        broken := true;
        return GaveUp;
      }
      assert !BadHeader(env, delivered, h);
      if BodySize(h) > 0 {
        if pdu.dataPos == 0 {
          StuckWhen(env, delivered, rest);
        }
        t := ReadBody(pdu);
        if t != HandedOn {
          return;
        }
      }
      t := HandOn(pdu);
    }

    // iscsi_read_from_socket: false when the connection is closed or given up. Of what has arrived it takes some, if
    // the kernel hands it out.
    method ReadFromSocket() returns (ok: bool)
      requires Valid() && !broken
      modifies this, sock, HalfRead()
      ensures Valid() && consumed + sock.arriving == old(consumed + sock.arriving) && (ok ==> !broken)
      ensures fresh(HalfRead() - old(HalfRead()))
      ensures 0 !in old(sock.answers) ==> (ok <==> !broken)
      ensures |sock.arriving| <= |old(sock.arriving)|
      ensures old(sock.Willing()) ==> |sock.arriving| < |old(sock.arriving)|
    {
      var t := TakeTurn();
      while t == HandedOn && env.more(delivered)
        invariant Valid() && consumed + sock.arriving == old(consumed + sock.arriving)
        invariant broken == (t == GaveUp) && (t == HandedOn ==> incoming == null) && fresh(HalfRead() - old(HalfRead()))
        invariant 0 !in old(sock.answers) ==> 0 !in sock.answers && t != Closed
        invariant |sock.arriving| <= |old(sock.arriving)|
        invariant old(sock.Willing()) ==> |sock.arriving| < |old(sock.arriving)|
        decreases |sock.arriving|, t == HandedOn
      {
        t := TakeTurn();
      }
      return t == HandedOn || t == Waiting;
    }

    // A call while a stream of well-formed PDUs arrives.
    method ReceiveOnce(answers: seq<int>, ghost fs: seq<Frame>)
      requires Arriving(fs) && |answers| > 0 && answers[0] > 0 && 0 !in answers
      modifies this, sock, HalfRead()
      ensures Arriving(fs) && fresh(HalfRead() - old(HalfRead()))
      ensures |sock.arriving| < |old(sock.arriving)| || sock.arriving == []
    {
      sock.answers := answers;
      var ok := ReadFromSocket();
      StreamIsHandedOn(this, fs, sock.arriving);
    }

    ghost predicate Arriving(fs: seq<Frame>)
      reads this, incoming, if incoming != null then {incoming.hdr} else {}
      reads if incoming != null then {incoming.data} else {}
      reads sock
    {
      Valid() && !broken && AllWellFormed(env, [], fs) && consumed + sock.arriving == Encode(fs)
    }

    // Any number of calls between which the kernel may hand out as little as one byte: in the end all PDUs of the
    // stream have been handed on.
    method ReceiveInTurns(turns: seq<seq<int>>, ghost fs: seq<Frame>)
      requires Arriving(fs) && |turns| >= |sock.arriving|
      requires forall i :: 0 <= i < |turns| ==> |turns[i]| > 0 && turns[i][0] > 0 && 0 !in turns[i]
      modifies this, sock, HalfRead()
      ensures Valid() && !broken && sock.arriving == [] && rest == [] && delivered == Deliveries(env, [], fs)
    {
      for i := 0 to |turns|
        invariant Arriving(fs) && fresh(HalfRead() - old(HalfRead()))
        invariant |sock.arriving| <= |turns| - i
      {
        ReceiveOnce(turns[i], fs);
      }
      StreamIsHandedOn(this, fs, sock.arriving);
    }
  }

  // Two receivers that got the same bytes, in whatever pieces, have handed on the same PDUs and keep the same rest.
  lemma PiecesDoNotMatter(r: Receiver, q: Receiver)
    requires r.Valid() && q.Valid() && r.env == q.env && r.consumed == q.consumed
    ensures r.delivered == q.delivered && r.broken == q.broken && (!r.broken ==> r.rest == q.rest)
  {
    assert r.InStep() && q.InStep();
  }

  // While a stream of well-formed PDUs arrives, the PDUs handed on are a prefix of those PDUs; when it has arrived they
  // are all of them.
  lemma StreamIsHandedOn(r: Receiver, fs: seq<Frame>, missing: seq<byte>)
    requires r.Valid() && AllWellFormed(r.env, [], fs) && r.consumed + missing == Encode(fs)
    ensures !r.broken && r.delivered <= Deliveries(r.env, [], fs)
    ensures missing == [] ==> r.delivered == Deliveries(r.env, [], fs) && r.rest == []
  {
    ParseOfEncode(r.env, [], fs);
    if r.broken {
      FailureStays(r.env, [], r.consumed, missing);
    } else {
      ParseResumes(r.env, [], r.consumed, missing);
      ParseGrows(r.env, r.delivered, r.rest + missing);
      assert missing == [] ==> r.consumed + missing == r.consumed;
    }
  }

  lemma Continues(rest: seq<byte>, bytes: seq<byte>, rest': seq<byte>, k: nat)
    requires k <= |rest| <= |rest'| && rest == rest'[..|rest|] && bytes == rest'[|rest|..]
    ensures rest'[..k] == rest[..k] && rest'[k..] == rest[k..] + bytes
  {
  }
}
