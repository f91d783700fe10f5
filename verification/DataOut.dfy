// Sending the data of a write command: immediate data, unsolicited DATA-OUTs and the answers to R2Ts
// (lib/iscsi-command.c).
module DataOut {
  import opened Common
  import opened Serial32

  const UNSOLICITED := 0xffff_ffff

  // A DATA-OUT PDU: it carries the bytes offset .. offset + len of the transfer.
  datatype Segment = Segment(ttt: uint32, datasn: uint32, offset: uint32, len: nat, final: bool)

  // What the context queues, in order.
  datatype Out = Command(immediateLen: nat, final: bool) | Data(segment: Segment)

  // ----- whether the loop ends

  // What a turn of the loop of iscsi_send_data_out starts from.
  datatype Pace = Pace(tot: nat, offset: uint32, datasn: uint32)

  function Turn(p: Pace, limit: nat): Pace {
    var len := Min(p.tot, limit);
    Pace(p.tot - len, Wrap(p.offset + len), Wrap(p.datasn + 1))
  }

  // After at most n turns.
  function After(p: Pace, limit: nat, n: nat): Pace
    decreases n
  {
    if n == 0 || p.tot == 0 then p else After(Turn(p, limit), limit, n - 1)
  }

  // The loop ends if and only if there is nothing to send or the target takes segments of at least one byte. A target
  // can announce a limit of zero: the login stores what it says unchecked.
  predicate Ends(tot: nat, limit: nat) {
    tot == 0 || limit > 0
  }

  lemma LoopEnds(p: Pace, limit: nat)
    ensures (exists n: nat :: After(p, limit, n).tot == 0) <==> Ends(p.tot, limit)
  {
    if Ends(p.tot, limit) {
      EnoughTurns(p, limit, p.tot);
    } else {
      forall n: nat ensures After(p, limit, n).tot != 0 {
        NeverLess(p, n);
      }
    }
  }

  lemma {:induction false} EnoughTurns(p: Pace, limit: nat, n: nat)
    requires Ends(p.tot, limit) && n >= p.tot
    ensures After(p, limit, n).tot == 0
    decreases n
  {
    if p.tot > 0 {
      EnoughTurns(Turn(p, limit), limit, n - 1);
    }
  }

  lemma {:induction false} NeverLess(p: Pace, n: nat)
    ensures After(p, 0, n).tot == p.tot
    decreases n
  {
    if n > 0 && p.tot > 0 {
      NeverLess(Turn(p, 0), n - 1);
    }
  }

  // One byte to send and a limit of zero: every turn queues an empty segment and leaves the byte.
  lemma ZeroLimitNeverEnds(n: nat)
    ensures After(Pace(1, 0, 0), 0, n).tot == 1
  {
    NeverLess(Pace(1, 0, 0), n);
  }

  // The train of segments has one segment for each turn.
  lemma {:induction false} TrainIsTurns(ttt: uint32, p: Pace, limit: nat)
    requires Ends(p.tot, limit)
    ensures var n := |Train(ttt, p.offset, p.tot, limit, p.datasn)|;
            After(p, limit, n).tot == 0 && forall m :: 0 <= m < n ==> After(p, limit, m).tot > 0
    decreases p.tot
  {
    if p.tot > 0 {
      var q := Turn(p, limit);
      TrainIsTurns(ttt, q, limit);
      var n := |Train(ttt, q.offset, q.tot, limit, q.datasn)|;
      assert |Train(ttt, p.offset, p.tot, limit, p.datasn)| == n + 1;
      forall m | 0 <= m < n + 1 ensures After(p, limit, m).tot > 0 {
        if m > 0 {
          assert After(p, limit, m) == After(q, limit, m - 1);
        }
      }
    }
  }

  // ----- the train of segments that one call sends

  function Train(ttt: uint32, offset: uint32, tot: nat, limit: nat, sn: uint32): seq<Segment>
    requires Ends(tot, limit)
    decreases tot
  {
    if tot == 0 then []
    else
      var len := Min(tot, limit);
      [Segment(ttt, sn, offset, len, tot == len)] + Train(ttt, Wrap(offset + len), tot - len, limit, Wrap(sn + 1))
  }

  function AsOut(segments: seq<Segment>): seq<Out> {
    seq(|segments|, i requires 0 <= i < |segments| => Data(segments[i]))
  }

  lemma QueuedMore(queued: seq<Out>, before: seq<Out>, sent: seq<Segment>, s: Segment)
    requires queued == before + AsOut(sent)
    ensures queued + [Data(s)] == before + AsOut(sent + [s])
  {
    assert AsOut(sent + [s]) == AsOut(sent) + [Data(s)];
  }

  // ----- what a burst has to be

  predicate Covers(s: Segment, b: nat) {
    s.offset <= b < s.offset + s.len
  }

  // How many of the segments carry byte b.
  function Carried(segments: seq<Segment>, b: nat): nat {
    if segments == [] then 0 else (if Covers(segments[0], b) then 1 else 0) + Carried(segments[1..], b)
  }

  // The segments carry lo .. hi in order, without gap or overlap.
  predicate Tiles(segments: seq<Segment>, lo: nat, hi: nat) {
    if segments == [] then lo == hi
    else segments[0].offset == lo && Tiles(segments[1..], lo + segments[0].len, hi)
  }

  // Every segment respects the target's limit; DataSN counts up from sn; F marks the last segment and no other.
  predicate WellFormed(segments: seq<Segment>, ttt: uint32, limit: nat, sn: nat) {
    forall i :: 0 <= i < |segments| ==> RightAt(segments, i, ttt, limit, sn)
  }

  predicate RightAt(segments: seq<Segment>, i: nat, ttt: uint32, limit: nat, sn: nat)
    requires i < |segments|
  {
    && segments[i].ttt == ttt && 0 < segments[i].len <= limit && segments[i].datasn == Wrap(sn + i)
    && (segments[i].final <==> i == |segments| - 1)
  }

  lemma TrainStep(ttt: uint32, offset: uint32, tot: nat, limit: nat, sn: uint32, rest: seq<Segment>)
    requires 0 < tot && 0 < limit
    requires rest == Train(ttt, Wrap(offset + Min(tot, limit)), tot - Min(tot, limit), limit, Wrap(sn + 1))
    ensures Train(ttt, offset, tot, limit, sn) == [Segment(ttt, sn, offset, Min(tot, limit), tot <= limit)] + rest
    ensures rest == [] <==> tot <= limit
  {
  }

  lemma NextSegment(ttt: uint32, offset: uint32, tot: nat, limit: nat, sn: uint32, sent: seq<Segment>, s: Segment,
                    whole: seq<Segment>)
    requires 0 < tot && 0 < limit && whole == sent + Train(ttt, offset, tot, limit, sn)
    requires s == Segment(ttt, sn, offset, Min(tot, limit), tot == Min(tot, limit))
    ensures whole == sent + [s] + Train(ttt, Wrap(offset + Min(tot, limit)), tot - Min(tot, limit), limit, Wrap(sn + 1))
  {
    var rest := Train(ttt, Wrap(offset + Min(tot, limit)), tot - Min(tot, limit), limit, Wrap(sn + 1));
    TrainStep(ttt, offset, tot, limit, sn, rest);
    Regroup(sent, [s], rest);
  }

  lemma {:induction false} TrainIsWellFormed(ttt: uint32, offset: uint32, tot: nat, limit: nat, sn: uint32)
    requires Ends(tot, limit)
    ensures WellFormed(Train(ttt, offset, tot, limit, sn), ttt, limit, sn)
    ensures tot > 0 <==> Train(ttt, offset, tot, limit, sn) != []
    decreases tot
  {
    if tot > 0 {
      var len := Min(tot, limit);
      var rest := Train(ttt, Wrap(offset + len), tot - len, limit, Wrap(sn + 1));
      TrainIsWellFormed(ttt, Wrap(offset + len), tot - len, limit, Wrap(sn + 1));
      TrainStep(ttt, offset, tot, limit, sn, rest);
      HeadRight(Segment(ttt, sn, offset, len, tot <= limit), rest, ttt, limit, sn);
    }
  }

  lemma HeadRight(s: Segment, rest: seq<Segment>, ttt: uint32, limit: nat, sn: uint32)
    requires WellFormed(rest, ttt, limit, Wrap(sn + 1))
    requires s.ttt == ttt && 0 < s.len <= limit && s.datasn == sn && (s.final <==> rest == [])
    ensures WellFormed([s] + rest, ttt, limit, sn)
  {
    var whole := [s] + rest;
    forall i | 0 <= i < |whole| ensures RightAt(whole, i, ttt, limit, sn) {
      if i > 0 {
        assert RightAt(rest, i - 1, ttt, limit, Wrap(sn + 1));
        WrapAbsorbs(sn + 1, i - 1);
      }
    }
  }

  lemma WrapAbsorbs(x: int, d: int)
    ensures Wrap(Wrap(x) + d) == Wrap(x + d)
  {
  }

  // Where the last segment of a train begins, counted from its first byte.
  function LastStart(tot: nat, limit: nat): nat
    requires Ends(tot, limit)
    decreases tot
  {
    if tot <= limit then 0 else limit + LastStart(tot - limit, limit)
  }

  // Offsets are 32 bits wide. A train tiles its range exactly when its last segment still begins below 2^32.
  lemma {:induction false} TrainTiles(ttt: uint32, offset: uint32, tot: nat, limit: nat, sn: uint32)
    requires Ends(tot, limit)
    ensures Tiles(Train(ttt, offset, tot, limit, sn), offset, offset + tot) <==> offset + LastStart(tot, limit) < M
    decreases tot
  {
    if tot > limit {
      var rest := Train(ttt, Wrap(offset + limit), tot - limit, limit, Wrap(sn + 1));
      TrainStep(ttt, offset, tot, limit, sn, rest);
      TilesBehind(Segment(ttt, sn, offset, limit, false), rest, offset + tot);
      if offset + limit < M {
        TrainTiles(ttt, offset + limit, tot - limit, limit, Wrap(sn + 1));
      } else {
        TrainStarts(ttt, Wrap(offset + limit), tot - limit, limit, Wrap(sn + 1));
        TilesFrom(rest, offset + limit, offset + tot);
      }
    } else if tot > 0 {
      TrainStep(ttt, offset, tot, limit, sn, []);
      TilesBehind(Segment(ttt, sn, offset, tot, true), [], offset + tot);
    }
  }

  // The same condition in closed form.
  lemma {:induction false} LastStartIs(tot: nat, limit: nat)
    requires tot > 0 && limit > 0
    ensures LastStart(tot, limit) == (tot - 1) / limit * limit
    decreases tot
  {
    if tot <= limit {
      QuotientIs(tot - 1, limit, 0, tot - 1);
    } else {
      LastStartIs(tot - limit, limit);
      var q := (tot - limit - 1) / limit;
      var r := (tot - limit - 1) % limit;
      assert tot - limit - 1 == q * limit + r;
      assert (q + 1) * limit == q * limit + limit;
      QuotientIs(tot - 1, limit, q + 1, r);
    }
  }

  lemma QuotientIs(x: nat, d: nat, q: nat, r: nat)
    requires r < d && x == q * d + r
    ensures x / d == q
  {
    assert x == x / d * d + x % d;
    Multiples(x / d, q, d);
    Multiples(q, x / d, d);
  }

  lemma Multiples(p: nat, q: nat, d: nat)
    ensures p < q ==> p * d + d <= q * d
  {
    if p < q {
      assert q * d == (p + 1) * d + (q - p - 1) * d;
    }
  }

  lemma TilesBelow(ttt: uint32, offset: uint32, tot: nat, limit: nat, sn: uint32)
    requires tot > 0 && limit > 0
    ensures Tiles(Train(ttt, offset, tot, limit, sn), offset, offset + tot) <==> offset + (tot - 1) / limit * limit < M
  {
    TrainTiles(ttt, offset, tot, limit, sn);
    LastStartIs(tot, limit);
  }

  lemma TilesBehind(s: Segment, rest: seq<Segment>, hi: nat)
    ensures Tiles([s] + rest, s.offset, hi) <==> Tiles(rest, s.offset + s.len, hi)
  {
    assert ([s] + rest)[1..] == rest;
  }

  lemma TilesFrom(segments: seq<Segment>, lo: nat, hi: nat)
    requires lo >= M && segments != []
    ensures !Tiles(segments, lo, hi)
  {
  }

  lemma TrainStarts(ttt: uint32, offset: uint32, tot: nat, limit: nat, sn: uint32)
    requires Ends(tot, limit)
    ensures tot > 0 <==> Train(ttt, offset, tot, limit, sn) != []
  {
  }

  // Two bytes behind the last 32-bit offset but one, one by one: the second segment is sent for offset zero.
  lemma TrainWraps()
    ensures var train := Train(0, M - 1, 2, 1, 0); !Tiles(train, M - 1, M + 1) && Carried(train, 0) == 1
  {
    TrainTiles(0, M - 1, 2, 1, 0);
    assert LastStart(2, 1) == 1 + LastStart(1, 1);
    var last := Segment(0, 1, 0, 1, true);
    TrainStep(0, 0, 1, 1, 1, []);
    assert [last] + [] == [last];
    TrainStep(0, M - 1, 2, 1, 0, [last]);
    assert Carried([last], 0) == 1;
    var train := [Segment(0, 0, M - 1, 1, false)] + [last];
    assert train[1..] == [last];
    assert Carried(train, 0) == 1;
  }

  // What tiling means for a single byte: it is carried once if it is in the range, and otherwise not at all.
  lemma {:induction false} TilesCarryOnce(segments: seq<Segment>, lo: nat, hi: nat, b: nat)
    requires Tiles(segments, lo, hi)
    ensures lo <= hi && Carried(segments, b) == if lo <= b < hi then 1 else 0
  {
    if segments != [] {
      TilesCarryOnce(segments[1..], lo + segments[0].len, hi, b);
    }
  }

  lemma {:induction false} CarriedAdds(x: seq<Segment>, y: seq<Segment>, b: nat)
    ensures Carried(x + y, b) == Carried(x, b) + Carried(y, b)
  {
    if x == [] {
      assert x + y == y;
    } else {
      assert (x + y)[1..] == x[1..] + y;
      CarriedAdds(x[1..], y, b);
    }
  }

  lemma {:induction false} SmallTrainTiles(ttt: uint32, offset: uint32, tot: nat, limit: nat, sn: uint32)
    requires Ends(tot, limit) && offset + tot <= M
    ensures Tiles(Train(ttt, offset, tot, limit, sn), offset, offset + tot)
  {
    LastStartIsInside(tot, limit);
    TrainTiles(ttt, offset, tot, limit, sn);
  }

  lemma {:induction false} LastStartIsInside(tot: nat, limit: nat)
    requires Ends(tot, limit)
    ensures tot > 0 ==> LastStart(tot, limit) < tot
    ensures tot == 0 ==> LastStart(tot, limit) == 0
    decreases tot
  {
    if tot > limit {
      LastStartIsInside(tot - limit, limit);
    }
  }

  // ----- the source's objects

  class CommandPdu {
    const expxferlen: uint32
    var payloadLen: uint32
    var datasn: uint32

    constructor (expxferlen: uint32)
      ensures this.expxferlen == expxferlen && payloadLen == 0 && datasn == 0
    {
      this.expxferlen, payloadLen, datasn := expxferlen, 0, 0;
    }
  }

  // The negotiated parameters that decide how data may be sent.
  datatype Settings = Settings(immediateData: bool, initialR2t: bool, firstBurst: uint32, maxSegment: uint32)

  // How much goes with the command, and how far unsolicited data may reach.
  function ImmediateLen(s: Settings, expxferlen: uint32): uint32 {
    if s.immediateData then Min(Min(expxferlen, s.firstBurst), s.maxSegment) else 0
  }

  function UnsolicitedEnd(s: Settings, expxferlen: uint32): uint32 {
    if s.initialR2t then ImmediateLen(s, expxferlen) else Min(expxferlen, s.firstBurst)
  }

  // The loop for the unsolicited data ends.
  predicate WriteEnds(s: Settings, expxferlen: uint32) {
    Ends(UnsolicitedEnd(s, expxferlen) - ImmediateLen(s, expxferlen), s.maxSegment)
  }

  predicate AllEnd(s: Settings, r2ts: seq<R2t>) {
    forall i :: 0 <= i < |r2ts| ==> Ends(r2ts[i].len, s.maxSegment)
  }

  class Context {
    const settings: Settings
    var queued: seq<Out>

    constructor (settings: Settings)
      ensures this.settings == settings && queued == []
    {
      this.settings, queued := settings, [];
    }

    // iscsi_send_data_out, whenever it ends.
    method SendDataOut(cmd: CommandPdu, ttt: uint32, offset0: uint32, totLen: uint32)
      requires Ends(totLen, settings.maxSegment)
      modifies this`queued, cmd`datasn
      ensures queued == old(queued) + AsOut(Train(ttt, offset0, totLen, settings.maxSegment, old(cmd.datasn)))
      ensures cmd.datasn == Wrap(old(cmd.datasn) + |Train(ttt, offset0, totLen, settings.maxSegment, old(cmd.datasn))|)
    {
      var tot: nat := totLen;
      var offset: uint32 := offset0;
      ghost var sent, limit, before := [], settings.maxSegment, queued;
      ghost var whole, sn := Train(ttt, offset0, totLen, limit, cmd.datasn), cmd.datasn;
      assert queued == before + AsOut([]);
      while tot > 0
        invariant Ends(tot, limit) && whole == sent + Train(ttt, offset, tot, limit, cmd.datasn)
        invariant queued == before + AsOut(sent) && cmd.datasn == Wrap(sn + |sent|)
      {
        var segment := SendNext(cmd, ttt, offset, tot, sent, whole, before, sn);
        sent := sent + [segment];
        tot, offset := tot - segment.len, Wrap(offset + segment.len);
      }
      assert sent + [] == sent;
    }

    // One turn of the loop.
    method SendNext(cmd: CommandPdu, ttt: uint32, offset: uint32, tot: nat, ghost sent: seq<Segment>,
                    ghost whole: seq<Segment>, ghost before: seq<Out>, ghost sn: uint32)
      returns (segment: Segment)
      requires tot > 0 && settings.maxSegment > 0
      requires whole == sent + Train(ttt, offset, tot, settings.maxSegment, cmd.datasn)
      requires queued == before + AsOut(sent) && cmd.datasn == Wrap(sn + |sent|)
      modifies this`queued, cmd`datasn
      ensures segment.len == Min(tot, settings.maxSegment)
      ensures whole == sent + [segment]
                       + Train(ttt, Wrap(offset + segment.len), tot - segment.len, settings.maxSegment, cmd.datasn)
      ensures queued == before + AsOut(sent + [segment]) && cmd.datasn == Wrap(sn + |sent| + 1)
    {
      var len := Min(tot, settings.maxSegment);
      ghost var n, q := cmd.datasn, queued;
      segment := SendSegment(cmd, ttt, offset, len, tot == len);
      NextSegment(ttt, offset, tot, settings.maxSegment, n, sent, segment, whole);
      WrapAbsorbs(sn + |sent|, 1);
      QueuedMore(q, before, sent, segment);
    }

    method SendSegment(cmd: CommandPdu, ttt: uint32, offset: uint32, len: nat, final: bool) returns (segment: Segment)
      modifies this`queued, cmd`datasn
      ensures segment == Segment(ttt, old(cmd.datasn), offset, len, final) && queued == old(queued) + [Data(segment)]
      ensures cmd.datasn == Wrap(old(cmd.datasn) + 1)
    {
      segment := Segment(ttt, cmd.datasn, offset, len, final);
      cmd.datasn := Wrap(cmd.datasn + 1);
      queued := queued + [Data(segment)];
    }

    // The part of iscsi_scsi_command_async that decides what goes with a write command and queues it.
    method IssueWrite(cmd: CommandPdu)
      requires WriteEnds(settings, cmd.expxferlen) && cmd.payloadLen == 0 && cmd.datasn == 0
      modifies this`queued, cmd`payloadLen, cmd`datasn
      ensures cmd.payloadLen == ImmediateLen(settings, cmd.expxferlen)
      ensures queued == old(queued) + WriteStart(settings, cmd.expxferlen)
    {
      var final := true;
      if settings.immediateData {
        cmd.payloadLen := Min(Min(cmd.expxferlen, settings.firstBurst), settings.maxSegment);
      }
      if !settings.initialR2t && cmd.payloadLen < cmd.expxferlen && cmd.payloadLen < settings.firstBurst {
        final := false;
      }
      queued := queued + [Command(cmd.payloadLen, final)];
      StartsOf(settings, cmd.expxferlen);
      if !final {
        SendUnsolicited(cmd);
      }
    }

    method SendUnsolicited(cmd: CommandPdu)
      requires cmd.payloadLen <= Min(cmd.expxferlen, settings.firstBurst)
      requires Ends(Min(cmd.expxferlen, settings.firstBurst) - cmd.payloadLen, settings.maxSegment)
      modifies this`queued, cmd`datasn
      ensures queued == old(queued) + AsOut(Train(UNSOLICITED, cmd.payloadLen,
                Min(cmd.expxferlen, settings.firstBurst) - cmd.payloadLen, settings.maxSegment, old(cmd.datasn)))
    {
      var len := Min(cmd.expxferlen, settings.firstBurst) - cmd.payloadLen;
      SendDataOut(cmd, UNSOLICITED, cmd.payloadLen, len);
    }

    // iscsi_process_r2t
    method ProcessR2t(cmd: CommandPdu, ttt: uint32, offset: uint32, len: uint32)
      requires Ends(len, settings.maxSegment)
      modifies this`queued, cmd`datasn
      ensures queued == old(queued) + AsOut(Train(ttt, offset, len, settings.maxSegment, 0))
      ensures cmd.datasn == Wrap(|Train(ttt, offset, len, settings.maxSegment, 0)|)
    {
      cmd.datasn := 0;
      SendDataOut(cmd, ttt, offset, len);
    }
  }

  // ----- a whole write

  // The unsolicited DATA-OUTs of a write.
  function Unsolicited(s: Settings, expxferlen: uint32): seq<Segment>
    requires WriteEnds(s, expxferlen)
  {
    var sent := ImmediateLen(s, expxferlen);
    Train(UNSOLICITED, sent, UnsolicitedEnd(s, expxferlen) - sent, s.maxSegment, 0)
  }

  // What issuing the command queues: F on the command exactly when no unsolicited DATA-OUT follows it.
  function WriteStart(s: Settings, expxferlen: uint32): seq<Out>
    requires WriteEnds(s, expxferlen)
  {
    [Command(ImmediateLen(s, expxferlen), Unsolicited(s, expxferlen) == [])] + AsOut(Unsolicited(s, expxferlen))
  }

  lemma StartsOf(s: Settings, expxferlen: uint32)
    requires WriteEnds(s, expxferlen)
    ensures var sent := ImmediateLen(s, expxferlen);
            Unsolicited(s, expxferlen) == [] <==> s.initialR2t || sent >= expxferlen || sent >= s.firstBurst
    ensures Unsolicited(s, expxferlen) == [] ==>
              WriteStart(s, expxferlen) == [Command(ImmediateLen(s, expxferlen), true)]
    ensures Unsolicited(s, expxferlen) != [] ==>
            WriteStart(s, expxferlen) ==
                [Command(ImmediateLen(s, expxferlen), false)] + AsOut(Unsolicited(s, expxferlen))
  {
  }

  datatype R2t = R2t(ttt: uint32, offset: uint32, len: uint32)

  // All DATA-OUTs that the R2Ts of the target bring about.
  function Solicited(s: Settings, r2ts: seq<R2t>): seq<Segment>
    requires AllEnd(s, r2ts)
  {
    if r2ts == [] then []
    else Train(r2ts[0].ttt, r2ts[0].offset, r2ts[0].len, s.maxSegment, 0) + Solicited(s, r2ts[1..])
  }

  // How many of the R2Ts ask for byte b.
  function Asked(r2ts: seq<R2t>, b: nat): nat {
    if r2ts == [] then 0
    else (if r2ts[0].offset <= b < r2ts[0].offset + r2ts[0].len then 1 else 0) + Asked(r2ts[1..], b)
  }

  // How often byte b of the transfer is sent.
  function Sent(s: Settings, expxferlen: uint32, r2ts: seq<R2t>, b: nat): nat
    requires WriteEnds(s, expxferlen) && AllEnd(s, r2ts)
  {
    (if b < ImmediateLen(s, expxferlen) then 1 else 0) + Carried(Unsolicited(s, expxferlen), b) +
      Carried(Solicited(s, r2ts), b)
  }

  // Immediate and unsolicited data together tile 0 .. min(expxferlen, FirstBurstLength) if InitialR2T is No, and
  // otherwise there is only the immediate data.
  lemma UnsolicitedTiles(s: Settings, expxferlen: uint32)
    requires WriteEnds(s, expxferlen)
    ensures Tiles(Unsolicited(s, expxferlen), ImmediateLen(s, expxferlen), UnsolicitedEnd(s, expxferlen))
    ensures WellFormed(Unsolicited(s, expxferlen), UNSOLICITED, s.maxSegment, 0)
  {
    var sent := ImmediateLen(s, expxferlen);
    SmallTrainTiles(UNSOLICITED, sent, UnsolicitedEnd(s, expxferlen) - sent, s.maxSegment, 0);
    TrainIsWellFormed(UNSOLICITED, sent, UnsolicitedEnd(s, expxferlen) - sent, s.maxSegment, 0);
  }

  lemma {:induction false} SolicitedCarriesAsked(s: Settings, r2ts: seq<R2t>, b: nat)
    requires AllEnd(s, r2ts) && forall i :: 0 <= i < |r2ts| ==> r2ts[i].offset + r2ts[i].len <= M
    ensures Carried(Solicited(s, r2ts), b) == Asked(r2ts, b)
  {
    if r2ts != [] {
      var r := r2ts[0];
      SmallTrainTiles(r.ttt, r.offset, r.len, s.maxSegment, 0);
      TilesCarryOnce(Train(r.ttt, r.offset, r.len, s.maxSegment, 0), r.offset, r.offset + r.len, b);
      CarriedAdds(Train(r.ttt, r.offset, r.len, s.maxSegment, 0), Solicited(s, r2ts[1..]), b);
      SolicitedCarriesAsked(s, r2ts[1..], b);
    }
  }

  // Every byte is sent once for the unsolicited part, if it lies there, and once for every R2T that asks for it.
  lemma WriteSends(s: Settings, expxferlen: uint32, r2ts: seq<R2t>, b: nat)
    requires WriteEnds(s, expxferlen) && AllEnd(s, r2ts)
    requires forall i :: 0 <= i < |r2ts| ==> r2ts[i].offset + r2ts[i].len <= M
    ensures Sent(s, expxferlen, r2ts, b) == (if b < UnsolicitedEnd(s, expxferlen) then 1 else 0) + Asked(r2ts, b)
  {
    UnsolicitedTiles(s, expxferlen);
    TilesCarryOnce(Unsolicited(s, expxferlen), ImmediateLen(s, expxferlen), UnsolicitedEnd(s, expxferlen), b);
    SolicitedCarriesAsked(s, r2ts, b);
  }

  predicate SentOnce(s: Settings, expxferlen: uint32, r2ts: seq<R2t>, b: nat)
    requires WriteEnds(s, expxferlen) && AllEnd(s, r2ts)
  {
    Sent(s, expxferlen, r2ts, b) == if b < expxferlen then 1 else 0
  }

  predicate AskedOnce(s: Settings, expxferlen: uint32, r2ts: seq<R2t>, b: nat) {
    Asked(r2ts, b) == if UnsolicitedEnd(s, expxferlen) <= b < expxferlen then 1 else 0
  }

  // So the target gets every byte of the transfer exactly once, and nothing else, if and only if its R2Ts ask exactly
  // once for exactly what was not sent unsolicited.
  lemma WriteIsComplete(s: Settings, expxferlen: uint32, r2ts: seq<R2t>)
    requires WriteEnds(s, expxferlen) && AllEnd(s, r2ts)
    requires forall i :: 0 <= i < |r2ts| ==> r2ts[i].offset + r2ts[i].len <= M
    ensures (forall b: nat :: SentOnce(s, expxferlen, r2ts, b)) <==>
              (forall b: nat :: AskedOnce(s, expxferlen, r2ts, b))
  {
    forall b: nat ensures SentOnce(s, expxferlen, r2ts, b) <==> AskedOnce(s, expxferlen, r2ts, b) {
      WriteSends(s, expxferlen, r2ts, b);
    }
  }
}
