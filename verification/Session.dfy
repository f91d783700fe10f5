// Runs of the initiator's command numbering: queueing, sending under the target's window, timeout and LUN scans,
// cancel-all, and the serials of received PDUs. The 32-bit state is compared with unbounded counters.
module Session {
  import opened Common
  import opened Serial32
  import opened CmdSn

  // The fields of the context that take part; wire lists the numbers of the commands handed to the socket so far.
  datatype State = State(queue: seq<Entry>, cmdsn: uint32, expcmdsn: uint32, maxcmdsn: uint32, wire: seq<uint32>)

  // Unbounded counters: the first number of the session, the next command to reach the wire, and what the target
  // acknowledged and allowed.
  datatype Counters = Counters(first: int, next: int, exp: int, max: int)

  // A target's numbers are given unbounded; the PDU carries their wrapped images.
  datatype Event =
    | Command(e: Entry)
    | ImmediatePdu(e: Entry)
    | DataOut(e: Entry)
    | Send
    | Scan(why: Reason)
    | CancelAll
    | Serials(exp: int, max: int)

  datatype Outcome = Idle | Held | BadNumber | Sent

  // The decision taken before the head of the queue becomes the current PDU.
  function SendOutcome(queue: seq<Entry>, expcmdsn: uint32, maxcmdsn: uint32): Outcome {
    if queue == [] then Idle
    else if Compare(queue[0].cmdsn, maxcmdsn) > 0 && !IsImmediate(queue[0]) then Held
    else if Compare(queue[0].cmdsn, expcmdsn) < 0 && !IsDataOut(queue[0]) then BadNumber
    else Sent
  }

  // A serial field only ever moves forward.
  function Advance(field: uint32, received: uint32): uint32 {
    if Compare(received, field) > 0 then received else field
  }

  function Apply(s: State, ev: Event): State {
    match ev
    case Command(e) =>
      s.(queue := Insert(s.queue, e.(cmdsn := s.cmdsn)), cmdsn := Wrap(s.cmdsn + 1))
    case ImmediatePdu(e) => s.(queue := Insert(s.queue, e.(cmdsn := s.cmdsn)))
    case DataOut(e) => s.(queue := Insert(s.queue, e))
    case Send =>
      if SendOutcome(s.queue, s.expcmdsn, s.maxcmdsn) == Sent then
        s.(queue := s.queue[1..], wire := s.wire + if IsCommand(s.queue[0]) then [s.queue[0].cmdsn] else [])
      else s
    case Scan(why) => s.(queue := Cull(s.queue, why, 0), cmdsn := Wrap(s.cmdsn - Dropped(s.queue, why)))
    case CancelAll => s.(queue := [], cmdsn := Wrap(s.cmdsn - Commands(s.queue)))
    case Serials(exp, max) =>
      s.(maxcmdsn := Advance(s.maxcmdsn, Wrap(max)), expcmdsn := Advance(s.expcmdsn, Wrap(exp)))
  }

  function Max(a: int, b: int): int {
    if a > b then a else b
  }

  function Count(c: Counters, s: State, ev: Event): Counters {
    match ev
    case Send =>
      if SendOutcome(s.queue, s.expcmdsn, s.maxcmdsn) != Sent then c
      else if IsCommand(s.queue[0]) then c.(next := c.next + 1)
      else c
    case Serials(exp, max) => c.(exp := Max(c.exp, exp), max := Max(c.max, max))
    case _ => c
  }

  // What may happen: kinds match, queued numbers stay within the half range that serial comparison allows, a
  // DATA-OUT belongs to an issued command, and the target acknowledges only what was sent, keeps its window below
  // 2^31 and does not jump by half the number range.
  ghost predicate Allowed(s: State, c: Counters, ev: Event) {
    match ev
    case Command(e) => IsCommand(e) && InWindow(s.queue, s.cmdsn)
    case ImmediatePdu(e) => IsImmediate(e) && !IsDataOut(e) && InWindow(s.queue, s.cmdsn)
    case DataOut(e) => IsDataOut(e) && !IsImmediate(e) && InWindow(s.queue, s.cmdsn) && 1 <= Age(s.cmdsn, e.cmdsn) < H
    case Serials(exp, max) => exp <= c.next && max - exp + 1 < H && -H < max - c.max < H && -H < exp - c.exp < H
    case _ => true
  }

  ghost predicate Inv(s: State, c: Counters) {
    && Numbered(s.queue, s.cmdsn)
    && s.cmdsn == Wrap(c.next + Commands(s.queue))
    && s.expcmdsn == Wrap(c.exp) && s.maxcmdsn == Wrap(c.max)
    && c.exp <= c.next <= c.max + 1 && c.max - c.exp + 1 < H
    && |s.wire| == c.next - c.first
    && forall i :: 0 <= i < |s.wire| ==> s.wire[i] == Wrap(c.first + i)
  }

  // A session starts with one random number in all three fields.
  function Start(n: uint32): (State, Counters) {
    (State([], n, n, n, []), Counters(n, n, n, n))
  }

  function RunFrom(s: State, c: Counters, events: seq<Event>): (State, Counters)
    decreases |events|
  {
    if events == [] then (s, c)
    else RunFrom(Apply(s, events[0]), Count(c, s, events[0]), events[1..])
  }

  ghost predicate AllowedRun(s: State, c: Counters, events: seq<Event>)
    decreases |events|
  {
    events == [] ||
    (Allowed(s, c, events[0]) && AllowedRun(Apply(s, events[0]), Count(c, s, events[0]), events[1..]))
  }

  // ----- one step

  lemma WrapAdds(x: int, d: int)
    ensures Wrap(Wrap(x) + d) == Wrap(x + d)
  {
    WrapUnique(x + d, Wrap(Wrap(x) + d), 0 - x / M - (Wrap(x) + d) / M);
  }

  lemma CommandKeepsInv(s: State, c: Counters, e: Entry)
    requires Inv(s, c) && Allowed(s, c, Command(e))
    ensures Inv(Apply(s, Command(e)), c)
  {
    IssueKeepsNumbering(s.queue, s.cmdsn, e.(cmdsn := s.cmdsn));
    WrapAdds(c.next + Commands(s.queue), 1);
  }

  lemma ScanKeepsInv(s: State, c: Counters, why: Reason)
    requires Inv(s, c)
    ensures Inv(Apply(s, Scan(why)), c)
  {
    CullKeepsNumbering(s.queue, s.cmdsn, why, 0, Wrap(s.cmdsn - Dropped(s.queue, why)));
    CullCounts(s.queue, why, 0);
    WrapAdds(c.next + Commands(s.queue), 0 - Dropped(s.queue, why));
  }

  lemma CancelKeepsInv(s: State, c: Counters)
    requires Inv(s, c)
    ensures Inv(Apply(s, CancelAll), c)
  {
    WrapAdds(c.next + Commands(s.queue), 0 - Commands(s.queue));
  }

  // The number of a queued PDU that is not a DATA-OUT, at the head: the next one for the wire.
  lemma HeadNumber(s: State, c: Counters)
    requires Inv(s, c) && s.queue != [] && !IsDataOut(s.queue[0])
    ensures s.queue[0].cmdsn == Wrap(c.next)
  {
    var k: int := Commands(s.queue);
    NumberOfAge(s.cmdsn, s.queue[0].cmdsn);
    WrapAdds(c.next + k, 0 - k);
  }

  lemma SendKeepsInv(s: State, c: Counters)
    requires Inv(s, c)
    ensures Inv(Apply(s, Send), Count(c, s, Send))
  {
    if SendOutcome(s.queue, s.expcmdsn, s.maxcmdsn) == Sent && IsCommand(s.queue[0]) {
      HeadNumber(s, c);
      CompareRefinesCounters(c.next, c.max);
    }
  }

  lemma SerialsKeepInv(s: State, c: Counters, exp: int, max: int)
    requires Inv(s, c) && Allowed(s, c, Serials(exp, max))
    ensures Inv(Apply(s, Serials(exp, max)), Count(c, s, Serials(exp, max)))
  {
    CompareRefinesCounters(max, c.max);
    CompareRefinesCounters(exp, c.exp);
  }

  lemma StepKeepsInv(s: State, c: Counters, ev: Event)
    requires Inv(s, c) && Allowed(s, c, ev)
    ensures Inv(Apply(s, ev), Count(c, s, ev))
  {
    match ev
    case Send => SendKeepsInv(s, c);
    case Serials(exp, max) => SerialsKeepInv(s, c, exp, max);
    case Command(e) => CommandKeepsInv(s, c, e);
    case ImmediatePdu(e) => ImmediateKeepsNumbering(s.queue, s.cmdsn, e.(cmdsn := s.cmdsn));
    case DataOut(e) => DataOutKeepsNumbering(s.queue, s.cmdsn, e);
    case Scan(why) => ScanKeepsInv(s, c, why);
    case CancelAll => CancelKeepsInv(s, c);
  }

  lemma QueuedNumber(s: State, c: Counters, i: nat)
    requires Inv(s, c) && i < Commands(s.queue)
    ensures CommandNumbers(s.queue)[i] == Wrap(c.next + i)
  {
    var k: int := Commands(s.queue);
    QueueIsGapless(s.queue, s.cmdsn, i);
    WrapAdds(c.next + k, i - k);
  }

  // ----- whole runs

  lemma {:induction false} RunKeepsInv(s: State, c: Counters, events: seq<Event>)
    requires Inv(s, c) && AllowedRun(s, c, events)
    ensures var (s', c') := RunFrom(s, c, events);
            Inv(s', c') && c'.first == c.first && c'.next >= c.next && c'.exp >= c.exp && c'.max >= c.max
    decreases |events|
  {
    if events != [] {
      StepKeepsInv(s, c, events[0]);
      RunKeepsInv(Apply(s, events[0]), Count(c, s, events[0]), events[1..]);
    }
  }

  // n, n+1, n+2, .. without a gap: first the commands that reached the wire, then the queued ones in queue order;
  // the counter continues after them.
  ghost predicate Gapless(s: State, n: int) {
    && (forall i :: 0 <= i < |s.wire| ==> s.wire[i] == Wrap(n + i))
    && (forall i :: 0 <= i < Commands(s.queue) ==> CommandNumbers(s.queue)[i] == Wrap(n + |s.wire| + i))
    && s.cmdsn == Wrap(n + |s.wire| + Commands(s.queue))
  }

  lemma InvMeansGapless(s: State, c: Counters)
    requires Inv(s, c)
    ensures Gapless(s, c.first)
  {
    assert c.next == c.first + |s.wire|;
    forall i | 0 <= i < Commands(s.queue) ensures CommandNumbers(s.queue)[i] == Wrap(c.next + i) {
      QueuedNumber(s, c, i);
    }
  }

  lemma NumberingIsGapless(n: uint32, events: seq<Event>)
    requires AllowedRun(Start(n).0, Start(n).1, events)
    ensures Gapless(RunFrom(Start(n).0, Start(n).1, events).0, n)
  {
    RunKeepsInv(Start(n).0, Start(n).1, events);
    var (s, c) := RunFrom(Start(n).0, Start(n).1, events);
    InvMeansGapless(s, c);
  }

  lemma WindowWraps(max: int, exp: int)
    requires -1 <= max - exp < M - 1
    ensures Wrap(Wrap(max) - Wrap(exp) + 1) == max - exp + 1
  {
    WrapUnique(Wrap(max) - Wrap(exp) + 1, max - exp + 1, max / M - exp / M);
  }

  // The commands on the wire that the target has not acknowledged fit the window it offers: at most
  // MaxCmdSN - ExpCmdSN + 1, computed in 32 bits as the source holds them.
  predicate WithinWindow(s: State, c: Counters) {
    && 0 <= c.next - c.exp <= Wrap(s.maxcmdsn - s.expcmdsn + 1)
    && |s.wire| == c.next - c.first && s.expcmdsn == Wrap(c.exp)
  }

  lemma InvMeansWindow(s: State, c: Counters)
    requires Inv(s, c)
    ensures WithinWindow(s, c)
  {
    WindowWraps(c.max, c.exp);
  }

  // So it is after any allowed run.
  lemma WindowIsRespected(n: uint32, events: seq<Event>)
    requires AllowedRun(Start(n).0, Start(n).1, events)
    ensures WithinWindow(RunFrom(Start(n).0, Start(n).1, events).0, RunFrom(Start(n).0, Start(n).1, events).1)
  {
    RunKeepsInv(Start(n).0, Start(n).1, events);
    InvMeansWindow(RunFrom(Start(n).0, Start(n).1, events).0, RunFrom(Start(n).0, Start(n).1, events).1);
  }

  // With such a target the error branch of the sender is dead: what is at the head is never older than ExpCmdSN.
  lemma SenderNeverFindsBadNumber(n: uint32, events: seq<Event>)
    requires AllowedRun(Start(n).0, Start(n).1, events)
    ensures var s := RunFrom(Start(n).0, Start(n).1, events).0;
            SendOutcome(s.queue, s.expcmdsn, s.maxcmdsn) != BadNumber
  {
    RunKeepsInv(Start(n).0, Start(n).1, events);
    var (s, c) := RunFrom(Start(n).0, Start(n).1, events);
    if s.queue != [] && !IsDataOut(s.queue[0]) {
      HeadNumber(s, c);
      CompareRefinesCounters(c.next, c.exp);
    }
  }

  // The sender holds a command back exactly when the target's window is used up.
  lemma HeldExactlyWhenWindowFull(s: State, c: Counters)
    requires Inv(s, c) && s.queue != [] && IsCommand(s.queue[0])
    ensures SendOutcome(s.queue, s.expcmdsn, s.maxcmdsn) == Held <==> c.next == c.max + 1
  {
    HeadNumber(s, c);
    CompareRefinesCounters(c.next, c.max);
  }

  // ----- what the queue does not keep

  // A run of a session in which PDUs with the same number do not stay in the order in which they were queued: command 5
  // is sent, a DATA-OUT of it is queued, then an immediate PDU, then another DATA-OUT of it. The second goes ahead of
  // the first.
  function Overtaking(x: Entry, y: Entry, w: Entry): seq<Event> {
    [Command(Entry(false, 0x01, 0, 0, None)), Send, DataOut(x), ImmediatePdu(w), DataOut(y)]
  }

  lemma LaterDataOutOvertakes(x: Entry, y: Entry, w: Entry)
    requires IsDataOut(x) && !IsImmediate(x) && x.cmdsn == 5 && IsDataOut(y) && !IsImmediate(y) && y.cmdsn == 5
    requires IsImmediate(w) && !IsDataOut(w)
    ensures AllowedRun(Start(5).0, Start(5).1, Overtaking(x, y, w))
    ensures RunFrom(Start(5).0, Start(5).1, Overtaking(x, y, w)).0.queue == [y, w.(cmdsn := 6), x]
  {
    var c := Entry(false, 0x01, 5, 0, None);
    var w6 := w.(cmdsn := 6);
    var events, k := Overtaking(x, y, w), Counters(5, 6, 5, 5);
    var s1, s2 := State([c], 6, 5, 5, []), State([], 6, 5, 5, [5]);
    var s3, s4, s5 := s2.(queue := [x]), s2.(queue := [w6, x]), s2.(queue := [y, w6, x]);
    assert Apply(Start(5).0, events[0]) == s1 by {
      assert Insert([], c) == [c];
    }
    assert Apply(s1, events[1]) == s2 && Count(Start(5).1, s1, Send) == k;
    assert Apply(s2, events[2]) == s3 by {
      assert Insert([], x) == [x];
    }
    assert Apply(s3, events[3]) == s4 by {
      assert [x][1..] == [];
      assert FirstNumber([x], 6) == FirstNumber([], 6) == 6;
      assert Place([x], w6) == 0;
      assert Insert([x], w6) == [w6] + [x];
    }
    assert Apply(s4, events[4]) == s5 by {
      assert Place([w6, x], y) == 0;
      assert Insert([w6, x], y) == [y] + [w6, x];
    }
    Unrolled(Start(5).0, Start(5).1, events, s1, s2, s3, s4, s5, k);
  }

  lemma Unrolled(s0: State, c0: Counters, events: seq<Event>, s1: State, s2: State, s3: State, s4: State, s5: State,
                 k: Counters)
    requires |events| == 5
    requires s1 == Apply(s0, events[0]) && s2 == Apply(s1, events[1]) && s3 == Apply(s2, events[2])
    requires s4 == Apply(s3, events[3]) && s5 == Apply(s4, events[4])
    requires Count(c0, s0, events[0]) == c0 && Count(c0, s1, events[1]) == k && Count(k, s2, events[2]) == k
    requires Count(k, s3, events[3]) == k && Count(k, s4, events[4]) == k
    requires Allowed(s0, c0, events[0]) && Allowed(s1, c0, events[1]) && Allowed(s2, k, events[2])
    requires Allowed(s3, k, events[3]) && Allowed(s4, k, events[4])
    ensures AllowedRun(s0, c0, events) && RunFrom(s0, c0, events) == (s5, k)
  {
    var e1, e2, e3, e4 := events[1..], events[2..], events[3..], events[4..];
    assert e1[1..] == e2 && e2[1..] == e3 && e3[1..] == e4 && e4[1..] == [];
    assert RunFrom(s4, k, e4) == (s5, k) && AllowedRun(s4, k, e4);
    assert RunFrom(s3, k, e3) == (s5, k) && AllowedRun(s3, k, e3);
    assert RunFrom(s2, k, e2) == (s5, k) && AllowedRun(s2, k, e2);
    assert RunFrom(s1, c0, e1) == (s5, k) && AllowedRun(s1, c0, e1);
  }
}
