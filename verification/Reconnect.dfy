// What a successful reconnect does with the commands of the old connection: iscsi_reconnect_cb in lib/connect.c.
module Reconnect {
  import opened Common
  import opened Serial32
  import opened CmdSn
  import opened PduList
  import opened OutQueue
  import Session
  import DataOut

  const NO_TAG: uint32 := 0xffff_ffff
  const SCSI_REQUEST := 0x01

  // What becomes of a PDU of the old connection.
  datatype Fate = Freed | Cancelled | Reissued

  function FateOf(p: Pdu): Fate {
    if p.itt == NO_TAG then Freed
    else if p.dropOnReconnect then if p.hasCallback then Cancelled else Freed
    else Reissued
  }

  // The PDUs with a given fate, in order.
  function WithFate(s: seq<Pdu>, f: Fate): seq<Pdu> {
    if s == [] then []
    else (if FateOf(s[0]) == f then [s[0]] else []) + WithFate(s[1..], f)
  }

  // What the new connection brings: the clock, the configured timeout, the negotiated parameters, the next task tag,
  // and its session: whether it is a normal one, logged in, or waiting to reconnect.
  datatype Setting = Setting(
    now: int, scsiTimeout: int, burst: DataOut.Settings, tag: uint32, normal: bool, loggedIn: bool, pending: bool)
  {
    // Whether iscsi_scsi_command_async takes commands.
    predicate Ready() {
      normal && (loggedIn || pending)
    }
  }

  // The entry of the command that takes the place of p; its number is taken when it is issued.
  function FreshEntry(p: Pdu, g: Setting): Entry {
    Stamp(Entry(false, SCSI_REQUEST, 0, 0, Some(p.lun)), g.now, g.scsiTimeout)
  }

  // A DATA-OUT of that command, whose number is n.
  function OutEntry(p: Pdu, n: uint32, g: Setting): Entry {
    Stamp(Entry(false, DATA_OUT, n, 0, Some(p.lun)), g.now, g.scsiTimeout)
  }

  // A write is sent in a loop that ends.
  predicate Sendable(t: Task, g: Setting) {
    t.isWrite ==> DataOut.WriteEnds(g.burst, t.expxferlen)
  }

  // How many unsolicited DATA-OUTs go with a task.
  function OutCount(t: Task?, g: Setting): nat {
    if t != null && t.isWrite && DataOut.WriteEnds(g.burst, t.expxferlen) then
      |DataOut.Unsolicited(g.burst, t.expxferlen)|
    else 0
  }

  // The state of the new connection when the commands of ps have been issued in order, each with its DATA-OUTs.
  function SendOuts(st: Session.State, e: Entry, k: nat): Session.State {
    if k == 0 then st else Session.Apply(SendOuts(st, e, k - 1), Session.DataOut(e))
  }

  function IssueOne(st: Session.State, p: Pdu, g: Setting): Session.State {
    SendOuts(Session.Apply(st, Session.Command(FreshEntry(p, g))), OutEntry(p, st.cmdsn, g), OutCount(p.task, g))
  }

  function Issue(st: Session.State, ps: seq<Pdu>, g: Setting): Session.State {
    if ps == [] then st else IssueOne(Issue(st, ps[..|ps| - 1], g), ps[|ps| - 1], g)
  }

  // ----- values

  lemma IssueSnoc(st: Session.State, ps: seq<Pdu>, p: Pdu, g: Setting)
    ensures Issue(st, ps + [p], g) == IssueOne(Issue(st, ps, g), p, g)
  {
    assert (ps + [p])[..|ps|] == ps;
  }

  lemma {:induction false} FateSnoc(s: seq<Pdu>, p: Pdu, f: Fate)
    ensures WithFate(s + [p], f) == if FateOf(p) == f then WithFate(s, f) + [p] else WithFate(s, f)
  {
    if s == [] {
      assert s + [p] == [p];
    } else {
      assert (s + [p])[1..] == s[1..] + [p];
      FateSnoc(s[1..], p, f);
    }
  }

  // Every PDU of the old connection has exactly one fate.
  lemma {:induction false} NothingIsLost(s: seq<Pdu>)
    ensures multiset(s) ==
              multiset(WithFate(s, Freed)) + multiset(WithFate(s, Cancelled)) + multiset(WithFate(s, Reissued))
  {
    if s != [] {
      NothingIsLost(s[1..]);
      assert s == [s[0]] + s[1..];
    }
  }

  // There is room for n more commands before the oldest queued number leaves the half range.
  ghost predicate Roomy(q: seq<Entry>, cmdsn: uint32, n: nat) {
    forall i :: 0 <= i < |q| ==> Age(cmdsn, q[i].cmdsn) + n < H
  }

  lemma OlderByOne(cmdsn: uint32, s: uint32)
    requires Age(cmdsn, s) < H
    ensures Age(Wrap(cmdsn + 1), s) == Age(cmdsn, s) + 1
  {
    AgeShifts(cmdsn, s, 1, 0);
  }

  lemma RoomAfterOne(q: seq<Entry>, e: Entry, cmdsn: uint32, n: nat)
    requires n > 0 && Roomy(q, cmdsn, n) && e.cmdsn == cmdsn && n < H
    ensures Insert(q, e) == q + [e] || !IsCommand(e)
    ensures Roomy(q + [e], Wrap(cmdsn + 1), n - 1)
  {
    if IsCommand(e) {
      FreshCommandGoesLast(q, e);
      assert q[..|q|] == q && q[|q|..] == [];
    }
    forall i | 0 <= i < |q + [e]| ensures Age(Wrap(cmdsn + 1), (q + [e])[i].cmdsn) + n - 1 < H {
      OlderByOne(cmdsn, (q + [e])[i].cmdsn);
    }
  }

  // A DATA-OUT of the latest command goes to the end.
  lemma {:induction false} OutGoesLast(es: seq<Entry>, x: Entry, cmdsn: uint32)
    requires !IsImmediate(x) && Age(cmdsn, x.cmdsn) == 1 && InWindow(es, cmdsn)
    requires forall i :: 0 <= i < |es| ==> Age(cmdsn, es[i].cmdsn) >= 1
    ensures Place(es, x) == |es|
  {
    if es != [] {
      assert InWindow(es[1..], cmdsn);
      assert forall i :: 0 <= i < |es[1..]| ==> es[1..][i] == es[i + 1];
      OutGoesLast(es[1..], x, cmdsn);
      CompareByAge(cmdsn, x.cmdsn, es[0].cmdsn);
    }
  }

  function Repeated(e: Entry, k: nat): (es: seq<Entry>)
    ensures |es| == k
  {
    if k == 0 then [] else Repeated(e, k - 1) + [e]
  }

  // With cmdsn the counter: all numbers are issued ones, and there is room for n more.
  ghost predicate Issued(q: seq<Entry>, cmdsn: uint32, n: nat) {
    forall i :: 0 <= i < |q| ==> 1 <= Age(cmdsn, q[i].cmdsn) < H - n
  }

  lemma {:induction false} OutsGoLast(st: Session.State, e: Entry, k: nat, n: nat)
    requires !IsImmediate(e) && Age(st.cmdsn, e.cmdsn) == 1 && n + 1 < H && Issued(st.queue, st.cmdsn, n)
    ensures SendOuts(st, e, k) == st.(queue := st.queue + Repeated(e, k))
    ensures Issued(SendOuts(st, e, k).queue, st.cmdsn, n)
  {
    if k == 0 {
      assert st.queue + [] == st.queue;
    } else {
      OutsGoLast(st, e, k - 1, n);
      var q := st.queue + Repeated(e, k - 1);
      OutGoesLast(q, e, st.cmdsn);
      assert q[..|q|] == q && q[|q|..] == [];
      assert Insert(q, e) == q + [e];
      Common.Regroup(st.queue, Repeated(e, k - 1), [e]);
    }
  }

  // What one re-issued task adds to the queue, and all of them.
  function Burst(p: Pdu, n: uint32, g: Setting): seq<Entry> {
    [FreshEntry(p, g).(cmdsn := n)] + Repeated(OutEntry(p, n, g), OutCount(p.task, g))
  }

  function Bursts(ps: seq<Pdu>, n: uint32, g: Setting): seq<Entry> {
    if ps == [] then []
    else Bursts(ps[..|ps| - 1], n, g) + Burst(ps[|ps| - 1], Wrap(n + |ps| - 1), g)
  }

  lemma IssueOneInOrder(st: Session.State, p: Pdu, g: Setting, n: nat)
    requires n + 1 < H && Roomy(st.queue, st.cmdsn, n + 1)
    ensures var r := IssueOne(st, p, g);
            && r.queue == st.queue + Burst(p, st.cmdsn, g) && r.cmdsn == Wrap(st.cmdsn + 1)
            && Roomy(r.queue, r.cmdsn, n)
  {
    var e := FreshEntry(p, g).(cmdsn := st.cmdsn);
    var st1 := Session.Apply(st, Session.Command(FreshEntry(p, g)));
    RoomAfterOne(st.queue, e, st.cmdsn, n + 1);
    assert st1.queue == st.queue + [e];
    forall i | 0 <= i < |st1.queue| ensures 1 <= Age(st1.cmdsn, st1.queue[i].cmdsn) < H - n {
      OlderByOne(st.cmdsn, st1.queue[i].cmdsn);
    }
    OutsGoLast(st1, OutEntry(p, st.cmdsn, g), OutCount(p.task, g), n);
    Common.Regroup(st.queue, [e], Repeated(OutEntry(p, st.cmdsn, g), OutCount(p.task, g)));
  }

  // Behind what is in the queue stand the re-issued commands in order, each followed by its DATA-OUTs, with consecutive
  // numbers from the counter on, as long as all queued numbers stay within the half range.
  ghost predicate StandsBehind(r: Session.State, st: Session.State, ps: seq<Pdu>, g: Setting, n: nat) {
    r.queue == st.queue + Bursts(ps, st.cmdsn, g) && r.cmdsn == Wrap(st.cmdsn + |ps|) && Roomy(r.queue, r.cmdsn, n)
  }

  lemma {:induction false} IssuedInOrder(st: Session.State, ps: seq<Pdu>, g: Setting, n: nat)
    requires |ps| + n < H && Roomy(st.queue, st.cmdsn, |ps| + n)
    ensures StandsBehind(Issue(st, ps, g), st, ps, g, n)
  {
    if ps == [] {
      assert st.queue + [] == st.queue;
    } else {
      var front := ps[..|ps| - 1];
      IssuedInOrder(st, front, g, n + 1);
      OneMoreStands(Issue(st, front, g), st, front, ps[|ps| - 1], g, n);
      IssueSnoc(st, front, ps[|ps| - 1], g);
      assert front + [ps[|ps| - 1]] == ps;
    }
  }

  lemma OneMoreStands(a: Session.State, st: Session.State, front: seq<Pdu>, p: Pdu, g: Setting, n: nat)
    requires n + 1 < H && StandsBehind(a, st, front, g, n + 1)
    ensures StandsBehind(IssueOne(a, p, g), st, front + [p], g, n)
  {
    OneMoreInOrder(st.queue, a, p, g, n, Bursts(front, st.cmdsn, g));
    Session.WrapAdds(st.cmdsn + |front|, 1);
    BurstsSnoc(front, p, st.cmdsn, g);
  }

  lemma OneMoreInOrder(q: seq<Entry>, a: Session.State, p: Pdu, g: Setting, n: nat, front: seq<Entry>)
    requires n + 1 < H && a.queue == q + front && Roomy(a.queue, a.cmdsn, n + 1)
    ensures var b := IssueOne(a, p, g);
            b.queue == q + (front + Burst(p, a.cmdsn, g)) && b.cmdsn == Wrap(a.cmdsn + 1) && Roomy(b.queue, b.cmdsn, n)
  {
    IssueOneInOrder(a, p, g, n);
    Common.Regroup(q, front, Burst(p, a.cmdsn, g));
  }

  lemma BurstsSnoc(front: seq<Pdu>, p: Pdu, n: uint32, g: Setting)
    ensures Bursts(front + [p], n, g) == Bursts(front, n, g) + Burst(p, Wrap(n + |front|), g)
  {
    assert (front + [p])[..|front|] == front;
  }

  // ----- the commands among them

  function CommandsOf(es: seq<Entry>): seq<Entry> {
    if es == [] then [] else (if IsCommand(es[0]) then [es[0]] else []) + CommandsOf(es[1..])
  }

  lemma {:induction false} CommandsOfJoined(a: seq<Entry>, b: seq<Entry>)
    ensures CommandsOf(a + b) == CommandsOf(a) + CommandsOf(b)
  {
    if a == [] {
      assert a + b == b;
    } else {
      assert (a + b)[1..] == a[1..] + b;
      CommandsOfJoined(a[1..], b);
      Common.Regroup(if IsCommand(a[0]) then [a[0]] else [], CommandsOf(a[1..]), CommandsOf(b));
    }
  }

  lemma {:induction false} NoCommands(e: Entry, k: nat)
    requires IsDataOut(e)
    ensures CommandsOf(Repeated(e, k)) == []
  {
    if k > 0 {
      NoCommands(e, k - 1);
      CommandsOfJoined(Repeated(e, k - 1), [e]);
    }
  }

  lemma CommandOfBurst(p: Pdu, n: uint32, g: Setting)
    ensures CommandsOf(Burst(p, n, g)) == [FreshEntry(p, g).(cmdsn := n)]
  {
    NoCommands(OutEntry(p, n, g), OutCount(p.task, g));
    CommandsOfJoined([FreshEntry(p, g).(cmdsn := n)], Repeated(OutEntry(p, n, g), OutCount(p.task, g)));
  }

  function Renewed(ps: seq<Pdu>, n: uint32, g: Setting): seq<Entry> {
    seq(|ps|, i requires 0 <= i < |ps| => FreshEntry(ps[i], g).(cmdsn := Wrap(n + i)))
  }

  // One command for each re-issued PDU, in their order, with consecutive numbers.
  lemma {:induction false} OneCommandEach(ps: seq<Pdu>, n: uint32, g: Setting)
    ensures CommandsOf(Bursts(ps, n, g)) == Renewed(ps, n, g)
  {
    if ps != [] {
      var k := |ps| - 1;
      OneCommandEach(ps[..k], n, g);
      CommandOfBurst(ps[k], Wrap(n + k), g);
      CommandsOfJoined(Bursts(ps[..k], n, g), Burst(ps[k], Wrap(n + k), g));
    }
  }

  // ----- the source's loop

  // Every PDU of the send queue joins the end of the wait list.
  method MoveQueue(lost: Context)
    requires lost.Valid()
    modifies lost`outqueue, lost`queue, lost`entries, lost`waitpdu, lost`waiting, lost.queue`next, lost.waiting`next
    ensures lost.Valid() && lost.queue == [] && lost.waiting == old(lost.waiting + lost.queue)
  {
    ghost var all := lost.waiting + lost.queue;
    while lost.outqueue != null
      invariant lost.Valid() && lost.waiting + lost.queue == all
      invariant forall j :: 0 <= j < |all| ==> all[j] in old(lost.waiting) || all[j] in old(lost.queue)
      invariant lost.Within(lost.queue, all) && lost.Within(lost.waiting, all)
      decreases |lost.queue|
    {
      var pdu: Pdu := lost.outqueue;
      lost.TakeAt(pdu, 0);
      lost.Park(pdu);
    }
  }

  ghost predicate Rewound(t: Task?)
    reads t
  {
    t != null && t.inOffset == 0 && t.inConsumed == 0 && t.outOffset == 0 && t.outConsumed == 0
  }

  ghost predicate AllRewound(s: seq<Pdu>, tasks: set<Task>)
    reads tasks
  {
    EachRewound(s, tasks) == true
  }

  ghost predicate EachRewound(s: seq<Pdu>, tasks: set<Task>)
    reads tasks
  {
    forall i :: 0 <= i < |s| ==> s[i].task in tasks && Rewound(s[i].task)
  }

  // The commands made from the survivors: the same tasks, in the same order.
  ghost predicate SameTasks(issued: seq<Pdu>, survivors: seq<Pdu>) {
    |issued| == |survivors| &&
    forall i :: 0 <= i < |issued| ==> issued[i].task == survivors[i].task && issued[i].lun == survivors[i].lun
  }

  // The tasks of the DATA-OUTs that go with them.
  function TaskTimes(t: Task?, k: nat): (ts: seq<Task?>)
    ensures |ts| == k
  {
    if k == 0 then [] else TaskTimes(t, k - 1) + [t]
  }

  function TrainTasks(survivors: seq<Pdu>, g: Setting): seq<Task?> {
    if survivors == [] then []
    else
      var k := |survivors| - 1;
      TrainTasks(survivors[..k], g) + TaskTimes(survivors[k].task, OutCount(survivors[k].task, g))
  }

  function TasksOf(s: seq<Pdu>): (ts: seq<Task?>)
    ensures |ts| == |s|
  {
    if s == [] then [] else TasksOf(s[..|s| - 1]) + [s[|s| - 1].task]
  }

  lemma {:induction false} TasksJoin(a: seq<Pdu>, b: seq<Pdu>)
    ensures TasksOf(a + b) == TasksOf(a) + TasksOf(b)
  {
    if b == [] {
      assert a + b == a;
    } else {
      var k := |b| - 1;
      assert (a + b)[..|a + b| - 1] == a + b[..k];
      TasksJoin(a, b[..k]);
    }
  }

  lemma TasksSnoc(a: seq<Pdu>, p: Pdu)
    ensures TasksOf(a + [p]) == TasksOf(a) + [p.task]
  {
    assert (a + [p])[..|a|] == a;
  }

  // What is in the queue now is what was there before and more.
  ghost predicate Grown(now: seq<Pdu>, was: multiset<Pdu>, more: seq<Pdu>) {
    multiset(now) == was + multiset(more)
  }

  lemma GrownMore(now: seq<Pdu>, mid: multiset<Pdu>, was: multiset<Pdu>, more: seq<Pdu>, p: Pdu)
    requires Grown(now, mid, [p]) && mid == was + multiset(more)
    ensures Grown(now, was, more + [p])
  {
  }

  // iscsi_send_unsolicited_data_out as far as the queue is concerned: DATA-OUTs with the number of their command.
  method SendTrain(context: Context, cmd: Pdu, k: nat, g: Setting) returns (outs: seq<Pdu>)
    requires context.Valid()
    modifies context`outqueue, context`queue, context`entries, context.queue`next
    ensures context.Valid() && Grown(context.queue, old(multiset(context.queue)), outs)
    ensures forall j :: 0 <= j < |context.queue| ==> context.queue[j] in old(context.queue) || fresh(context.queue[j])
    ensures TasksOf(outs) == TaskTimes(cmd.task, k)
    ensures context.Abstract() == SendOuts(old(context.Abstract()), OutEntry(cmd, old(cmd.cmdsn), g), k)
  {
    outs := [];
    ghost var q0, st, n := multiset(context.queue), context.Abstract(), cmd.cmdsn;
    var number := cmd.cmdsn;
    for i := 0 to k
      invariant context.Valid() && Grown(context.queue, q0, outs)
      invariant forall j :: 0 <= j < |context.queue| ==>
                  context.queue[j] in old(context.queue) || fresh(context.queue[j])
      invariant TasksOf(outs) == TaskTimes(cmd.task, i)
      invariant context.Abstract() == SendOuts(st, OutEntry(cmd, n, g), i)
    {
      ghost var mid := multiset(context.queue);
      var p := SendOne(context, cmd, number, g);
      TasksSnoc(outs, p);
      GrownMore(context.queue, mid, q0, outs, p);
      outs := outs + [p];
    }
  }

  method SendOne(context: Context, cmd: Pdu, number: uint32, g: Setting) returns (p: Pdu)
    requires context.Valid()
    modifies context`outqueue, context`queue, context`entries, context.queue`next
    ensures context.Valid() && Grown(context.queue, old(multiset(context.queue)), [p]) && fresh(p) && p.task == cmd.task
    ensures forall j :: 0 <= j < |context.queue| ==> context.queue[j] in old(context.queue) || context.queue[j] == p
    ensures context.Abstract() == Session.Apply(old(context.Abstract()), Session.DataOut(OutEntry(cmd, number, g)))
  {
    p := new Pdu(false, DATA_OUT, Some(cmd.lun), true, cmd.itt, true, false, cmd.lun, cmd.task);
    context.SetOutside(p, number, p.timeout);
    ghost var i := context.QueueDataOut(p, g.now, g.scsiTimeout);
  }

  // The part of iscsi_scsi_command_async that queues the new command of a task, with the tag it was given.
  method IssueCommand(context: Context, pdu: Pdu, tag: uint32, g: Setting) returns (p: Pdu)
    requires context.Valid() && pdu.task != null
    modifies context`outqueue, context`queue, context`entries, context`cmdsn, context.queue`next
    ensures context.Valid() && Grown(context.queue, old(multiset(context.queue)), [p]) && fresh(p)
    ensures p.task == pdu.task && p.lun == pdu.lun && p.itt == tag && p.cmdsn == old(context.cmdsn)
    ensures forall j :: 0 <= j < |context.queue| ==> context.queue[j] in old(context.queue) || context.queue[j] == p
    ensures context.Abstract() == Session.Apply(old(context.Abstract()), Session.Command(FreshEntry(pdu, g)))
  {
    p := new Pdu(false, SCSI_REQUEST, Some(pdu.lun), false, tag, false, true, pdu.lun, pdu.task);
    context.IssueCommand(p, g.now, g.scsiTimeout);
    forall j | 0 <= j < |context.queue| ensures context.queue[j] in old(context.queue) || context.queue[j] == p {
      assert context.queue[j] in multiset(context.queue);
    }
  }

  // iscsi_scsi_command_async for the task of a lost command.
  method IssueTask(context: Context, pdu: Pdu, tag: uint32, g: Setting) returns (issued: Pdu, outs: seq<Pdu>)
    requires context.Valid() && pdu.task != null && Sendable(pdu.task, g)
    modifies context`outqueue, context`queue, context`entries, context`cmdsn, context.queue`next
    ensures context.Valid() && Grown(context.queue, old(multiset(context.queue)), [issued] + outs)
    ensures issued.task == pdu.task && issued.lun == pdu.lun && issued.itt == tag
    ensures TasksOf(outs) == TaskTimes(pdu.task, OutCount(pdu.task, g))
    ensures forall j :: 0 <= j < |context.queue| ==> context.queue[j] in old(context.queue) || fresh(context.queue[j])
    ensures context.Abstract() == IssueOne(old(context.Abstract()), pdu, g)
  {
    issued := IssueCommand(context, pdu, tag, g);
    outs := [];
    if pdu.task.isWrite {
      outs := SendTrain(context, issued, |DataOut.Unsolicited(g.burst, pdu.task.expxferlen)|, g);
    }
  }

  // ----- one PDU of the old connection after the other

  // Where the new connection stands when the PDUs `done` of the old one have been dealt with: `issued` are the commands
  // made from the survivors, `outs` the DATA-OUTs that went with them.
  ghost predicate Handed(context: Context, done: seq<Pdu>, cancelled: seq<Pdu>, issued: seq<Pdu>, outs: seq<Pdu>,
                         g: Setting, st: Session.State, q0: multiset<Pdu>)
    reads context
  {
    Accounted(context, done, cancelled, issued, outs, g, st, q0) == true
  }

  ghost predicate Accounted(context: Context, done: seq<Pdu>, cancelled: seq<Pdu>, issued: seq<Pdu>, outs: seq<Pdu>,
                            g: Setting, st: Session.State, q0: multiset<Pdu>)
    reads context
  {
    && cancelled == WithFate(done, Cancelled)
    && (if g.Ready() then SameTasks(issued, WithFate(done, Reissued)) else issued == [])
    && TasksOf(outs) == (if g.Ready() then TrainTasks(WithFate(done, Reissued), g) else [])
    && context.Abstract() == (if g.Ready() then Issue(st, WithFate(done, Reissued), g) else st)
    && Grown(context.queue, q0, issued + outs)
  }

  // A survivor leads to one command and its DATA-OUTs.
  lemma HandedOne(g: Setting, done: seq<Pdu>, pdu: Pdu, issued: seq<Pdu>, outs: seq<Pdu>, p: Pdu, more: seq<Pdu>,
                  st: Session.State, a0: Session.State, a1: Session.State)
    requires FateOf(pdu) == Reissued && p.task == pdu.task && p.lun == pdu.lun
    requires SameTasks(issued, WithFate(done, Reissued)) && TasksOf(outs) == TrainTasks(WithFate(done, Reissued), g)
    requires TasksOf(more) == TaskTimes(pdu.task, OutCount(pdu.task, g))
    requires a0 == Issue(st, WithFate(done, Reissued), g) && a1 == IssueOne(a0, pdu, g)
    ensures SameTasks(issued + [p], WithFate(done + [pdu], Reissued))
    ensures TasksOf(outs + more) == TrainTasks(WithFate(done + [pdu], Reissued), g)
    ensures a1 == Issue(st, WithFate(done + [pdu], Reissued), g)
  {
    var survivors := WithFate(done, Reissued);
    FateSnoc(done, pdu, Reissued);
    IssueSnoc(st, survivors, pdu, g);
    TasksJoin(outs, more);
    TrainSnoc(survivors, pdu, g);
    SameTasksSnoc(issued, survivors, p, pdu);
  }

  lemma TrainSnoc(survivors: seq<Pdu>, pdu: Pdu, g: Setting)
    ensures TrainTasks(survivors + [pdu], g) == TrainTasks(survivors, g) + TaskTimes(pdu.task, OutCount(pdu.task, g))
  {
    assert (survivors + [pdu])[..|survivors|] == survivors;
  }

  lemma SameTasksSnoc(issued: seq<Pdu>, survivors: seq<Pdu>, p: Pdu, pdu: Pdu)
    requires SameTasks(issued, survivors) && p.task == pdu.task && p.lun == pdu.lun
    ensures SameTasks(issued + [p], survivors + [pdu])
  {
  }

  lemma GrownTwice(now: seq<Pdu>, mid: multiset<Pdu>, was: multiset<Pdu>, issued: seq<Pdu>, outs: seq<Pdu>, p: Pdu,
                   more: seq<Pdu>)
    requires Grown(now, mid, [p] + more) && mid == was + multiset(issued + outs)
    ensures Grown(now, was, (issued + [p]) + (outs + more))
  {
  }

  // A survivor of a connection on which the new session takes no commands.
  lemma HandedNothing(context: Context, done: seq<Pdu>, pdu: Pdu, cancelled: seq<Pdu>, issued: seq<Pdu>, outs: seq<Pdu>,
                      g: Setting, st: Session.State, q0: multiset<Pdu>)
    requires Handed(context, done, cancelled, issued, outs, g, st, q0) && FateOf(pdu) == Reissued && !g.Ready()
    ensures Handed(context, done + [pdu], cancelled, issued, outs, g, st, q0)
  {
    FateSnoc(done, pdu, Cancelled);
  }

  // The case of a SCSI command that survives.
  method HandTask(context: Context, pdu: Pdu, tag: uint32, ghost done: seq<Pdu>, ghost cancelled: seq<Pdu>,
                  issued: seq<Pdu>, outs: seq<Pdu>, g: Setting, ghost st: Session.State, ghost q0: multiset<Pdu>)
    returns (issued': seq<Pdu>, outs': seq<Pdu>)
    requires context.Valid() && Handed(context, done, cancelled, issued, outs, g, st, q0)
    requires FateOf(pdu) == Reissued && pdu.task != null && Sendable(pdu.task, g)
    modifies context`outqueue, context`queue, context`entries, context`cmdsn, context.queue`next
    ensures context.Valid() && Handed(context, done + [pdu], cancelled, issued', outs', g, st, q0)
    ensures forall j :: 0 <= j < |context.queue| ==> context.queue[j] in old(context.queue) || fresh(context.queue[j])
  {
    if g.Ready() {
      issued', outs' := HandReady(context, pdu, tag, done, cancelled, issued, outs, g, st, q0);
    } else {
      HandedNothing(context, done, pdu, cancelled, issued, outs, g, st, q0);
      issued', outs' := issued, outs;
    }
  }

  method HandReady(context: Context, pdu: Pdu, tag: uint32, ghost done: seq<Pdu>, ghost cancelled: seq<Pdu>,
                   issued: seq<Pdu>, outs: seq<Pdu>, g: Setting, ghost st: Session.State, ghost q0: multiset<Pdu>)
    returns (issued': seq<Pdu>, outs': seq<Pdu>)
    requires context.Valid() && Accounted(context, done, cancelled, issued, outs, g, st, q0) && g.Ready()
    requires FateOf(pdu) == Reissued && pdu.task != null && Sendable(pdu.task, g)
    modifies context`outqueue, context`queue, context`entries, context`cmdsn, context.queue`next
    ensures context.Valid() && Accounted(context, done + [pdu], cancelled, issued', outs', g, st, q0)
    ensures forall j :: 0 <= j < |context.queue| ==> context.queue[j] in old(context.queue) || fresh(context.queue[j])
  {
    ghost var a0, mid := context.Abstract(), multiset(context.queue);
    var p, more := IssueTask(context, pdu, tag, g);
    issued', outs' := issued + [p], outs + more;
    FateSnoc(done, pdu, Cancelled);
    HandedOne(g, done, pdu, issued, outs, p, more, st, a0, context.Abstract());
    GrownTwice(context.queue, mid, q0, issued, outs, p, more);
  }

  lemma HandedOther(context: Context, done: seq<Pdu>, pdu: Pdu, cancelled: seq<Pdu>, issued: seq<Pdu>, outs: seq<Pdu>,
                    g: Setting, st: Session.State, q0: multiset<Pdu>)
    requires Handed(context, done, cancelled, issued, outs, g, st, q0) && FateOf(pdu) != Reissued
    ensures Handed(context, done + [pdu], if FateOf(pdu) == Cancelled then cancelled + [pdu] else cancelled, issued,
                   outs, g, st, q0)
  {
    FateSnoc(done, pdu, Cancelled);
    FateSnoc(done, pdu, Reissued);
  }

  // The cursors of the task go back to the beginning.
  method Rewind(t: Task, ghost done: seq<Pdu>, ghost pdu: Pdu, ghost tasks: set<Task>)
    requires t == pdu.task && t in tasks && AllRewound(WithFate(done, Reissued), tasks) && FateOf(pdu) == Reissued
    modifies t
    ensures AllRewound(WithFate(done + [pdu], Reissued), tasks)
  {
    FateSnoc(done, pdu, Reissued);
    t.inOffset, t.inConsumed, t.outOffset, t.outConsumed := 0, 0, 0, 0;
  }

  // One turn of the loop, on a PDU that has left the list.
  method HandOver(context: Context, pdu: Pdu, tag: uint32, ghost done: seq<Pdu>, cancelled: seq<Pdu>, issued: seq<Pdu>,
                  outs: seq<Pdu>, g: Setting, ghost st: Session.State, ghost q0: multiset<Pdu>, ghost tasks: set<Task>)
    returns (cancelled': seq<Pdu>, issued': seq<Pdu>, outs': seq<Pdu>)
    requires context.Valid() && Handed(context, done, cancelled, issued, outs, g, st, q0)
    requires FateOf(pdu) == Reissued ==> pdu.task in tasks && Sendable(pdu.task, g)
    requires AllRewound(WithFate(done, Reissued), tasks)
    modifies context`outqueue, context`queue, context`entries, context`cmdsn, context.queue`next, tasks
    ensures context.Valid() && Handed(context, done + [pdu], cancelled', issued', outs', g, st, q0)
    ensures AllRewound(WithFate(done + [pdu], Reissued), tasks)
    ensures forall j :: 0 <= j < |context.queue| ==> context.queue[j] in old(context.queue) || fresh(context.queue[j])
  {
    cancelled', issued', outs' := cancelled, issued, outs;
    FateSnoc(done, pdu, Reissued);
    if pdu.itt == NO_TAG {
      HandedOther(context, done, pdu, cancelled, issued, outs, g, st, q0);
      return;
    }
    if pdu.dropOnReconnect {
      HandedOther(context, done, pdu, cancelled, issued, outs, g, st, q0);
      if pdu.hasCallback {
        cancelled' := cancelled + [pdu];
      }
      return;
    }
    issued', outs' := HandSurvivor(context, pdu, tag, done, cancelled, issued, outs, g, st, q0, tasks);
  }

  method HandSurvivor(context: Context, pdu: Pdu, tag: uint32, ghost done: seq<Pdu>, ghost cancelled: seq<Pdu>,
                      issued: seq<Pdu>, outs: seq<Pdu>, g: Setting, ghost st: Session.State, ghost q0: multiset<Pdu>,
                      ghost tasks: set<Task>)
    returns (issued': seq<Pdu>, outs': seq<Pdu>)
    requires context.Valid() && Handed(context, done, cancelled, issued, outs, g, st, q0)
    requires FateOf(pdu) == Reissued && pdu.task in tasks && Sendable(pdu.task, g)
    requires AllRewound(WithFate(done, Reissued), tasks)
    modifies context`outqueue, context`queue, context`entries, context`cmdsn, context.queue`next, tasks
    ensures context.Valid() && Handed(context, done + [pdu], cancelled, issued', outs', g, st, q0)
    ensures AllRewound(WithFate(done + [pdu], Reissued), tasks)
    ensures forall j :: 0 <= j < |context.queue| ==> context.queue[j] in old(context.queue) || fresh(context.queue[j])
  {
    Rewind(pdu.task, done, pdu, tasks);
    issued', outs' := HandTask(context, pdu, tag, done, cancelled, issued, outs, g, st, q0);
  }

  ghost predicate Foreign(s: seq<Pdu>, context: Context)
    reads context
  {
    OnNeither(s, context) == true
  }

  ghost predicate OnNeither(s: seq<Pdu>, context: Context)
    reads context
  {
    forall j :: 0 <= j < |s| ==> s[j] !in context.queue && s[j] !in context.waiting
  }

  ghost predicate HaveTasks(s: seq<Pdu>, tasks: set<Task>, g: Setting) {
    forall j :: 0 <= j < |s| ==> FateOf(s[j]) == Reissued ==> s[j].task in tasks && Sendable(s[j].task, g)
  }

  // The first PDU leaves the detached list; the lists of the new connection are others.
  method TakeFirst(tmp: Pdu, ghost rest: seq<Pdu>, ghost context: Context) returns (tmp': Pdu?)
    requires IsList(tmp, rest) && context.Valid() && Foreign(rest, context)
    modifies rest`next
    ensures IsList(tmp', rest[1..]) && context.Valid()
  {
    WithoutAt(rest, tmp, 0);
    tmp' := Remove(tmp, tmp, rest);
    assert rest[..0] + rest[1..] == rest[1..];
    forall j | 0 <= j < |context.queue| ensures LinkAt(context.queue, j) && ShowsAt(context.queue, context.entries, j) {
      assert old(LinkAt(context.queue, j)) && old(ShowsAt(context.queue, context.entries, j)) &&
             context.queue[j] in context.queue;
    }
    forall j | 0 <= j < |context.waiting| ensures LinkAt(context.waiting, j) {
      assert old(LinkAt(context.waiting, j)) && context.waiting[j] in context.waiting;
    }
  }

  // One turn of the loop.
  method HandNext(context: Context, tmp: Pdu, tag: uint32, ghost rest: seq<Pdu>, ghost done: seq<Pdu>,
                  cancelled: seq<Pdu>, issued: seq<Pdu>, outs: seq<Pdu>, g: Setting, ghost st: Session.State,
                  ghost q0: multiset<Pdu>, ghost tasks: set<Task>)
    returns (tmp': Pdu?, cancelled': seq<Pdu>, issued': seq<Pdu>, outs': seq<Pdu>)
    requires IsList(tmp, rest) && context.Valid() && Foreign(rest, context)
    requires Handed(context, done, cancelled, issued, outs, g, st, q0)
    requires FateOf(tmp) == Reissued ==> tmp.task in tasks && Sendable(tmp.task, g)
    requires AllRewound(WithFate(done, Reissued), tasks)
    modifies rest`next, context`outqueue, context`queue, context`entries, context`cmdsn, context.queue`next, tasks
    ensures IsList(tmp', rest[1..]) && context.Valid() && Foreign(rest[1..], context)
    ensures Handed(context, done + [tmp], cancelled', issued', outs', g, st, q0)
    ensures AllRewound(WithFate(done + [tmp], Reissued), tasks)
    ensures forall j :: 0 <= j < |context.queue| ==> context.queue[j] in old(context.queue) || fresh(context.queue[j])
  {
    tmp' := TakeFirst(tmp, rest, context);
    ghost var left := rest[1..];
    assert Foreign(left, context);
    label L:
    cancelled', issued', outs' := HandOver(context, tmp, tag, done, cancelled, issued, outs, g, st, q0, tasks);
    forall j | 0 <= j < |left| ensures LinkAt(left, j) {
      assert old@L(LinkAt(left, j)) && left[j] !in old@L(context.queue);
    }
  }

  ghost predicate Parts(all: seq<Pdu>, done: seq<Pdu>, rest: seq<Pdu>) {
    Divided(all, done, rest) == true
  }

  ghost predicate Divided(all: seq<Pdu>, done: seq<Pdu>, rest: seq<Pdu>) {
    done + rest == all && forall j :: 0 <= j < |rest| ==> rest[j] in all
  }

  lemma PartsShift(all: seq<Pdu>, done: seq<Pdu>, rest: seq<Pdu>)
    requires Parts(all, done, rest) && rest != []
    ensures Parts(all, done + [rest[0]], rest[1..])
  {
  }

  lemma FirstHasTask(all: seq<Pdu>, done: seq<Pdu>, rest: seq<Pdu>, tasks: set<Task>, g: Setting)
    requires Parts(all, done, rest) && rest != [] && HaveTasks(all, tasks, g)
    ensures FateOf(rest[0]) == Reissued ==> rest[0].task in tasks && Sendable(rest[0].task, g)
  {
    assert all[|done|] == rest[0];
  }

  lemma HandedNone(context: Context, g: Setting)
    ensures Handed(context, [], [], [], [], g, context.Abstract(), multiset(context.queue))
  {
  }

  // The loop over the detached list.
  method HandOverAll(context: Context, head: Pdu?, ghost all: seq<Pdu>, g: Setting, ghost tasks: set<Task>)
    returns (cancelled: seq<Pdu>, issued: seq<Pdu>, outs: seq<Pdu>)
    requires IsList(head, all) && context.Valid() && Foreign(all, context) && HaveTasks(all, tasks, g)
    modifies all`next, context`outqueue, context`queue, context`entries, context`cmdsn, context.queue`next, tasks
    ensures context.Valid() && AllRewound(WithFate(all, Reissued), tasks)
    ensures Handed(context, all, cancelled, issued, outs, g, old(context.Abstract()), old(multiset(context.queue)))
  {
    ghost var st, q0 := context.Abstract(), multiset(context.queue);
    var tmp := head;
    var itt: uint32 := g.tag;
    ghost var done, rest := [], all;
    cancelled, issued, outs := [], [], [];
    HandedNone(context, g);
    while tmp != null
      invariant IsList(tmp, rest) && Foreign(rest, context) && Parts(all, done, rest)
      invariant forall j :: 0 <= j < |context.queue| ==>
                  context.queue[j] in old(context.queue) || fresh(context.queue[j])
      invariant context.Valid() && Handed(context, done, cancelled, issued, outs, g, st, q0)
      invariant AllRewound(WithFate(done, Reissued), tasks)
      decreases |rest|
    {
      tmp, itt, cancelled, issued, outs :=
        HandPart(context, tmp, itt, all, done, rest, cancelled, issued, outs, g, st, q0, tasks);
      done, rest := done + [rest[0]], rest[1..];
    }
    assert done == all;
  }

  // One turn, seen from the whole list.
  method HandPart(context: Context, tmp: Pdu, tag: uint32, ghost all: seq<Pdu>, ghost done: seq<Pdu>,
                  ghost rest: seq<Pdu>, cancelled: seq<Pdu>, issued: seq<Pdu>, outs: seq<Pdu>, g: Setting,
                  ghost st: Session.State, ghost q0: multiset<Pdu>, ghost tasks: set<Task>)
    returns (tmp': Pdu?, tag': uint32, cancelled': seq<Pdu>, issued': seq<Pdu>, outs': seq<Pdu>)
    requires IsList(tmp, rest) && Foreign(rest, context) && Parts(all, done, rest) && HaveTasks(all, tasks, g)
    requires context.Valid() && Handed(context, done, cancelled, issued, outs, g, st, q0)
    requires AllRewound(WithFate(done, Reissued), tasks)
    modifies all`next, context`outqueue, context`queue, context`entries, context`cmdsn, context.queue`next, tasks
    ensures rest != [] && IsList(tmp', rest[1..]) && Foreign(rest[1..], context)
    ensures Parts(all, done + [rest[0]], rest[1..])
    ensures context.Valid() && Handed(context, done + [rest[0]], cancelled', issued', outs', g, st, q0)
    ensures AllRewound(WithFate(done + [rest[0]], Reissued), tasks)
    ensures forall j :: 0 <= j < |context.queue| ==> context.queue[j] in old(context.queue) || fresh(context.queue[j])
  {
    PartsShift(all, done, rest);
    FirstHasTask(all, done, rest, tasks, g);
    tmp', cancelled', issued', outs' := HandNext(context, tmp, tag, rest, done, cancelled, issued, outs, g, st, q0,
                                                 tasks);
    tag' := if |issued'| > |issued| then NextTag(tag) else tag;
  }

  // iscsi_reconnect_cb after a login that succeeded: waiting PDUs first, then the ones that were never sent. Every
  // survivor is issued again once, in this order, with its DATA-OUTs behind it and the next number.
  method ReconnectDone(lost: Context, context: Context, g: Setting, ghost tasks: set<Task>)
    returns (cancelled: seq<Pdu>, issued: seq<Pdu>, outs: seq<Pdu>)
    requires lost != context && lost.Valid() && context.Valid()
    requires Foreign(lost.queue, context) && Foreign(lost.waiting, context)
    requires HaveTasks(lost.waiting, tasks, g) && HaveTasks(lost.queue, tasks, g)
    modifies lost`outqueue, lost`queue, lost`entries, lost`waitpdu, lost`waiting, lost.queue`next, lost.waiting`next
    modifies context`outqueue, context`queue, context`entries, context`cmdsn, context.queue`next, tasks
    ensures lost.queue == [] && lost.waiting == [] && context.Valid()
    ensures var all := old(lost.waiting + lost.queue);
            && Handed(context, all, cancelled, issued, outs, g, old(context.Abstract()), old(multiset(context.queue)))
            && AllRewound(WithFate(all, Reissued), tasks)
            && Outcome(context.Abstract(), all, cancelled, g, old(context.Abstract()))
  {
    ghost var all, st := lost.waiting + lost.queue, context.Abstract();
    TwoLists(lost.waiting, lost.queue, context, tasks, g);
    var tmp := Detach(lost, context);
    cancelled, issued, outs := HandOverAll(context, tmp, all, g, tasks);
    OutcomeOf(context.Abstract(), all, cancelled, g, st);
  }

  lemma TwoLists(a: seq<Pdu>, b: seq<Pdu>, context: Context, tasks: set<Task>, g: Setting)
    requires Foreign(a, context) && Foreign(b, context) && HaveTasks(a, tasks, g) && HaveTasks(b, tasks, g)
    ensures Foreign(a + b, context) && HaveTasks(a + b, tasks, g)
  {
  }

  // Everything leaves the old connection; the new one is not touched.
  method Detach(lost: Context, ghost context: Context) returns (tmp: Pdu?)
    requires lost != context && lost.Valid() && context.Valid()
    requires Foreign(lost.queue, context) && Foreign(lost.waiting, context)
    modifies lost`outqueue, lost`queue, lost`entries, lost`waitpdu, lost`waiting, lost.queue`next, lost.waiting`next
    ensures lost.queue == [] && lost.waiting == [] && context.Valid()
    ensures IsList(tmp, old(lost.waiting + lost.queue))
  {
    MoveQueue(lost);
    tmp := lost.waitpdu;
    lost.waitpdu, lost.waiting := null, [];
    forall j | 0 <= j < |context.queue| ensures LinkAt(context.queue, j) && ShowsAt(context.queue, context.entries, j) {
      assert old(LinkAt(context.queue, j)) && old(ShowsAt(context.queue, context.entries, j)) &&
             context.queue[j] in context.queue;
    }
    forall j | 0 <= j < |context.waiting| ensures LinkAt(context.waiting, j) {
      assert old(LinkAt(context.waiting, j)) && context.waiting[j] in context.waiting;
    }
  }

  // All of it: every PDU of the old connection is freed, cancelled or issued again, none twice; the new queue is the
  // old one and behind it, for each survivor in order, its command with the next number and its DATA-OUTs with that
  // number; the commands among them are one for each survivor, numbered consecutively.
  ghost predicate Outcome(now: Session.State, all: seq<Pdu>, cancelled: seq<Pdu>, g: Setting, was: Session.State) {
    && multiset(all) == multiset(WithFate(all, Freed)) + multiset(cancelled) + multiset(WithFate(all, Reissued))
    && (g.Ready() ==> InOrder(now, WithFate(all, Reissued), g, was))
  }

  ghost predicate InOrder(now: Session.State, survivors: seq<Pdu>, g: Setting, was: Session.State) {
    |survivors| < H && Roomy(was.queue, was.cmdsn, |survivors|) ==>
      && now.queue == was.queue + Bursts(survivors, was.cmdsn, g)
      && now.cmdsn == Wrap(was.cmdsn + |survivors|)
      && CommandsOf(now.queue) == CommandsOf(was.queue) + Renewed(survivors, was.cmdsn, g)
  }

  lemma SurvivorsInOrder(was: Session.State, survivors: seq<Pdu>, g: Setting)
    ensures InOrder(Issue(was, survivors, g), survivors, g, was)
  {
    if |survivors| < H && Roomy(was.queue, was.cmdsn, |survivors|) {
      IssuedInOrder(was, survivors, g, 0);
      OneCommandEach(survivors, was.cmdsn, g);
      CommandsOfJoined(was.queue, Bursts(survivors, was.cmdsn, g));
    }
  }

  lemma OutcomeOf(now: Session.State, all: seq<Pdu>, cancelled: seq<Pdu>, g: Setting, was: Session.State)
    requires cancelled == WithFate(all, Cancelled) && (g.Ready() ==> now == Issue(was, WithFate(all, Reissued), g))
    ensures Outcome(now, all, cancelled, g, was)
  {
    NothingIsLost(all);
    SurvivorsInOrder(was, WithFate(all, Reissued), g);
  }
}
