// The outgoing queue of a context as the source keeps it: linked PDUs that are relinked and renumbered in place
// (lib/socket.c, lib/pdu.c). Every method is tied to the functions of CmdSn, about which Session proves its theorems.
module OutQueue {
  import opened Common
  import opened Serial32
  import opened CmdSn
  import opened PduList
  import Session

  // How a scan divides the objects of the queue.
  function Kept(s: seq<Pdu>, es: seq<Entry>, why: Reason): seq<Pdu>
    requires |s| == |es|
  {
    if s == [] then []
    else if Drops(why, es[0]) then Kept(s[1..], es[1..], why)
    else [s[0]] + Kept(s[1..], es[1..], why)
  }

  function Gone(s: seq<Pdu>, es: seq<Entry>, why: Reason): seq<Pdu>
    requires |s| == |es|
  {
    if s == [] then []
    else if Drops(why, es[0]) then [s[0]] + Gone(s[1..], es[1..], why)
    else Gone(s[1..], es[1..], why)
  }

  function RemoveAt<T>(s: seq<T>, k: nat): (r: seq<T>)
    requires k < |s|
    ensures |r| == |s| - 1
  {
    s[..k] + s[k + 1..]
  }

  function Snoc<T>(s: seq<T>, x: T): (r: seq<T>)
    ensures |r| == |s| + 1
  {
    s + [x]
  }

  function ShiftAt(es: seq<Entry>, k: nat, gap: nat): (r: seq<Entry>)
    requires k < |es|
    ensures |r| == |es|
  {
    es[k := Shift(es[k], gap)]
  }

  // The state of a scan: the queue and its values, the position, the objects dropped and the commands among them.
  datatype Pass = Pass(q: seq<Pdu>, es: seq<Entry>, k: nat, gone: seq<Pdu>, gap: nat) {
    predicate Fits() {
      k <= |q| == |es|
    }

    function Next(why: Reason): (r: Pass)
      requires Fits() && k < |q|
      ensures r.Fits() && |r.q| - r.k == |q| - k - 1
    {
      if Drops(why, es[k]) then
        Pass(RemoveAt(q, k), RemoveAt(es, k), k, Snoc(gone, q[k]), gap + Weight(es[k]))
      else
        Pass(q, ShiftAt(es, k, gap), k + 1, gone, gap)
    }
  }

  function Stamp(e: Entry, now: int, scsiTimeout: int): Entry {
    e.(timeout := if scsiTimeout > 0 then now + scsiTimeout else 0)
  }

  // The fields of the context that concern the queue. The ghost fields name the objects of the two lists in order,
  // the values of the queued ones, and the numbers of the commands that went to the socket.
  class Context {
    var outqueue: Pdu?
    var waitpdu: Pdu?
    var current: Pdu?
    var cmdsn: uint32
    var expcmdsn: uint32
    var maxcmdsn: uint32
    ghost var queue: seq<Pdu>
    ghost var waiting: seq<Pdu>
    ghost var entries: seq<Entry>
    ghost var wire: seq<uint32>

    // The state that Session reasons about.
    ghost function Abstract(): Session.State
      reads this
    {
      Session.State(entries, cmdsn, expcmdsn, maxcmdsn, wire)
    }

    // The comparison with `true` keeps the lists together where they are only passed on.
    ghost predicate Valid()
      reads this, queue, waiting
    {
      TwoLists() == true
    }

    ghost predicate TwoLists()
      reads this, queue, waiting
    {
      && IsList(outqueue, queue) && IsList(waitpdu, waiting) && Shows(queue, entries)
      && forall p :: p in queue ==> p !in waiting
    }

    constructor (first: uint32)
      ensures Valid() && queue == [] && waiting == [] && current == null
      ensures Abstract() == Session.Start(first).0
    {
      outqueue, waitpdu, current := null, null, null;
      cmdsn, expcmdsn, maxcmdsn := first, first, first;
      queue, waiting, entries, wire := [], [], [], [];
    }

    // ----- single list steps

    // The PDU at position i leaves the queue.
    method TakeAt(pdu: Pdu, ghost i: nat)
      requires Valid() && i < |queue| && queue[i] == pdu
      modifies this`outqueue, this`queue, this`entries, queue`next
      ensures Valid() && queue == RemoveAt(old(queue), i) && pdu !in queue
      ensures entries == RemoveAt(old(entries), i)
      ensures pdu.next == old(pdu.next)
    {
      ghost var s, es := queue, entries;
      OnlyAt(s, i);
      WithoutAt(s, pdu, i);
      outqueue := Remove(outqueue, pdu, s);
      queue, entries := s[..i] + s[i + 1..], es[..i] + es[i + 1..];
      forall j | 0 <= j < |queue| ensures ShowsAt(queue, entries, j) {
        assert old(ShowsAt(s, es, if j < i then j else j + 1));
      }
      forall j | 0 <= j < |waiting| ensures LinkAt(waiting, j) {
        assert old(LinkAt(waiting, j)) && waiting[j] in waiting;
      }
    }

    // A PDU joins the end of the wait list.
    method Park(pdu: Pdu)
      requires Valid() && pdu !in queue && pdu !in waiting
      modifies this`waitpdu, this`waiting, waiting`next, pdu`next
      ensures Valid() && waiting == old(waiting) + [pdu]
    {
      waitpdu := AddEnd(waitpdu, pdu, waiting);
      waiting := waiting + [pdu];
      forall j | 0 <= j < |queue| ensures LinkAt(queue, j) && ShowsAt(queue, entries, j) {
        assert old(LinkAt(queue, j)) && old(ShowsAt(queue, entries, j)) && queue[j] in queue;
      }
    }

    ghost predicate Within(part: seq<Pdu>, all: seq<Pdu>) {
      forall j :: 0 <= j < |part| ==> part[j] in all
    }

    // The PDUs a scan has dropped so far.
    ghost predicate Collected(dropped: Pdu?, gone: seq<Pdu>)
      reads this, gone
    {
      IsList(dropped, gone) && forall p :: p in gone ==> p !in queue && p !in waiting
    }

    // The PDU at position i moves from the queue to the end of the dropped ones.
    method DropAt(pdu: Pdu, ghost i: nat, dropped: Pdu?, ghost gone: seq<Pdu>) returns (dropped': Pdu?)
      requires Valid() && i < |queue| && queue[i] == pdu && Collected(dropped, gone)
      modifies this`outqueue, this`queue, this`entries, queue`next, gone`next
      ensures Valid() && queue == RemoveAt(old(queue), i)
      ensures entries == RemoveAt(old(entries), i)
      ensures Collected(dropped', Snoc(gone, pdu))
    {
      TakeAt(pdu, i);
      forall j | 0 <= j < |gone| ensures LinkAt(gone, j) {
        assert old(LinkAt(gone, j)) && gone[j] in gone;
      }
      label L:
      dropped' := AddEnd(dropped, pdu, gone);
      forall j | 0 <= j < |queue| ensures LinkAt(queue, j) && ShowsAt(queue, entries, j) {
        assert old@L(LinkAt(queue, j)) && old@L(ShowsAt(queue, entries, j)) && queue[j] in queue;
      }
      forall j | 0 <= j < |waiting| ensures LinkAt(waiting, j) {
        assert old@L(LinkAt(waiting, j)) && waiting[j] in waiting;
      }
    }

    // A PDU is linked in at position i.
    method LinkIn(pdu: Pdu, last: Pdu?, cursor: Pdu?, ghost i: nat)
      requires Valid() && pdu !in queue && pdu !in waiting && i <= |queue|
      requires cursor == (if i < |queue| then queue[i] else null) && last == (if i > 0 then queue[i - 1] else null)
      modifies this`outqueue, this`queue, this`entries, pdu`next, queue`next
      ensures Valid() && queue == old(queue)[..i] + [pdu] + old(queue)[i..]
      ensures entries == old(entries)[..i] + [old(pdu.View())] + old(entries)[i..]
    {
      ghost var s, es := queue, entries;
      outqueue := Link(outqueue, last, cursor, pdu, s, i);
      queue, entries := s[..i] + [pdu] + s[i..], es[..i] + [pdu.View()] + es[i..];
      forall j | 0 <= j < |queue| ensures ShowsAt(queue, entries, j) {
        assert j != i ==> old(ShowsAt(s, es, if j < i then j else j - 1));
      }
      forall j | 0 <= j < |waiting| ensures LinkAt(waiting, j) {
        assert old(LinkAt(waiting, j)) && waiting[j] in waiting;
      }
    }

    // Writing the expiry time or number of a PDU outside the lists leaves them alone.
    method SetOutside(pdu: Pdu, cmdsn: uint32, timeout: int)
      requires Valid() && pdu !in queue && pdu !in waiting
      modifies pdu`cmdsn, pdu`timeout
      ensures Valid() && pdu.View() == old(pdu.View()).(cmdsn := cmdsn, timeout := timeout)
    {
      pdu.cmdsn, pdu.timeout := cmdsn, timeout;
      forall j | 0 <= j < |queue| ensures LinkAt(queue, j) && ShowsAt(queue, entries, j) {
        assert old(LinkAt(queue, j)) && old(ShowsAt(queue, entries, j)) && queue[j] in queue;
      }
      forall j | 0 <= j < |waiting| ensures LinkAt(waiting, j) {
        assert old(LinkAt(waiting, j)) && waiting[j] in waiting;
      }
    }

    // ----- queueing

    // iscsi_add_to_outqueue, with the clock and the configured timeout as parameters.
    method AddToOutqueue(pdu: Pdu, now: int, scsiTimeout: int) returns (ghost i: nat)
      requires Valid() && pdu !in queue && pdu !in waiting
      modifies this`outqueue, this`queue, this`entries, pdu`cmdsn, pdu`timeout, pdu`next, queue`next
      ensures Valid() && i <= |old(queue)| && queue == old(queue)[..i] + [pdu] + old(queue)[i..]
      ensures i == Place(old(entries), Renumbered(old(entries), Stamp(old(pdu.View()), now, scsiTimeout)))
      ensures entries == Insert(old(entries), Stamp(old(pdu.View()), now, scsiTimeout))
      ensures pdu.View() == Renumbered(old(entries), Stamp(old(pdu.View()), now, scsiTimeout))
    {
      SetOutside(pdu, pdu.cmdsn, if scsiTimeout > 0 then now + scsiTimeout else 0);
      if outqueue == null {
        i := 0;
        LinkIn(pdu, null, null, 0);
      } else {
        if pdu.immediate {
          var number := NumberForImmediate(pdu.cmdsn);
          SetOutside(pdu, number, pdu.timeout);
        }
        var last: Pdu?, cursor: Pdu?;
        i, last, cursor := FindPlace(pdu);
        LinkIn(pdu, last, cursor, i);
      }
    }

    // The search for the first entry that is not a DATA-OUT, whose number an immediate PDU takes.
    method NumberForImmediate(own: uint32) returns (number: uint32)
      requires Valid() && outqueue != null
      ensures number == FirstNumber(entries, own)
    {
      var cursor: Pdu? := outqueue;
      number := own;
      ghost var i := 0;
      while cursor != null
        invariant 0 <= i <= |queue| && cursor == (if i < |queue| then queue[i] else null)
        invariant FirstNumber(entries, own) == FirstNumber(entries[i..], own)
        decreases |queue| - i
      {
        assert entries[i..][1..] == entries[i + 1..] && LinkAt(queue, i) && ShowsAt(queue, entries, i);
        if cursor.opcode != DATA_OUT {
          return cursor.cmdsn;
        }
        cursor := cursor.next;
        i := i + 1;
      }
    }

    // The walk to the first entry that the PDU goes before.
    method FindPlace(pdu: Pdu) returns (ghost i: nat, last: Pdu?, cursor: Pdu?)
      requires Valid()
      ensures i == Place(entries, pdu.View())
      ensures cursor == (if i < |queue| then queue[i] else null) && last == (if i > 0 then queue[i - 1] else null)
    {
      ghost var x := pdu.View();
      cursor := outqueue;
      last := null;
      i := 0;
      while cursor != null
        invariant 0 <= i <= |queue|
        invariant cursor == (if i < |queue| then queue[i] else null) && last == (if i > 0 then queue[i - 1] else null)
        invariant Place(entries, x) == i + Place(entries[i..], x)
        decreases |queue| - i
      {
        assert entries[i..][1..] == entries[i + 1..] && LinkAt(queue, i) && ShowsAt(queue, entries, i);
        if Compare(pdu.cmdsn, cursor.cmdsn) < 0 || (pdu.immediate && !cursor.immediate) {
          return;
        }
        last := cursor;
        cursor := cursor.next;
        i := i + 1;
      }
    }

    // The number of a command is taken and the counter moved on before the command is queued.
    method IssueCommand(pdu: Pdu, now: int, scsiTimeout: int)
      requires Valid() && pdu !in queue && pdu !in waiting
      modifies this`outqueue, this`queue, this`entries, this`cmdsn, pdu`cmdsn, pdu`timeout, pdu`next, queue`next
      ensures Valid() && multiset(queue) == old(multiset(queue)) + multiset{pdu}
      ensures Abstract() == Session.Apply(old(Abstract()), Session.Command(Stamp(old(pdu.View()), now, scsiTimeout)))
      ensures !old(pdu.immediate) ==> pdu.cmdsn == old(cmdsn)
    {
      ghost var s := queue;
      SetOutside(pdu, cmdsn, pdu.timeout);
      cmdsn := Wrap(cmdsn + 1);
      ghost var i := AddToOutqueue(pdu, now, scsiTimeout);
      Inserted(s, i, pdu);
    }

    // An immediate PDU carries the counter as it stands when it is queued.
    method QueueImmediate(pdu: Pdu, now: int, scsiTimeout: int)
      requires Valid() && pdu !in queue && pdu !in waiting
      modifies this`outqueue, this`queue, this`entries, pdu`cmdsn, pdu`timeout, pdu`next, queue`next
      ensures Valid() && multiset(queue) == old(multiset(queue)) + multiset{pdu}
      ensures Abstract() ==
                Session.Apply(old(Abstract()), Session.ImmediatePdu(Stamp(old(pdu.View()), now, scsiTimeout)))
    {
      ghost var s := queue;
      SetOutside(pdu, cmdsn, pdu.timeout);
      ghost var i := AddToOutqueue(pdu, now, scsiTimeout);
      Inserted(s, i, pdu);
    }

    // A DATA-OUT keeps the number of its command.
    method QueueDataOut(pdu: Pdu, now: int, scsiTimeout: int) returns (ghost i: nat)
      requires Valid() && pdu !in queue && pdu !in waiting
      modifies this`outqueue, this`queue, this`entries, pdu`cmdsn, pdu`timeout, pdu`next, queue`next
      ensures Valid() && i <= |old(queue)| && queue == old(queue)[..i] + [pdu] + old(queue)[i..]
      ensures multiset(queue) == old(multiset(queue)) + multiset{pdu}
      ensures Abstract() == Session.Apply(old(Abstract()), Session.DataOut(Stamp(old(pdu.View()), now, scsiTimeout)))
    {
      ghost var s := queue;
      i := AddToOutqueue(pdu, now, scsiTimeout);
      Inserted(s, i, pdu);
    }

    // ----- sending

    // The start of iscsi_write_to_socket when no PDU is in progress: decide about the head of the queue and, if it
    // may go, make it the current PDU; it joins the wait list unless it is to be deleted once sent.
    method PopHead() returns (outcome: Session.Outcome)
      requires Valid() && current == null
      modifies this`outqueue, this`queue, this`entries, this`current, this`waitpdu, this`waiting, this`wire
      modifies queue`next, waiting`next
      ensures Valid() && Abstract() == Session.Apply(old(Abstract()), Session.Send)
      ensures outcome == Session.SendOutcome(old(entries), expcmdsn, maxcmdsn)
      ensures outcome == Session.Sent ==>
                && old(queue) != [] && current == old(queue)[0] && queue == old(queue)[1..]
                && waiting == old(waiting) + if current.deleteWhenSent then [] else [current]
      ensures outcome != Session.Sent ==>
                current == null && queue == old(queue) && waiting == old(waiting) && entries == old(entries)
    {
      if outqueue == null {
        return Session.Idle;
      }
      assert ShowsAt(queue, entries, 0);
      if Compare(outqueue.cmdsn, maxcmdsn) > 0 && !outqueue.immediate {
        return Session.Held;
      }
      if Compare(outqueue.cmdsn, expcmdsn) < 0 && outqueue.opcode != DATA_OUT {
        return Session.BadNumber;
      }
      current := outqueue;
      wire := wire + if IsCommand(entries[0]) then [entries[0].cmdsn] else [];
      TakeAt(current, 0);
      if !current.deleteWhenSent {
        Park(current);
      }
      return Session.Sent;
    }

    // The current PDU is on the wire as a whole.
    method CurrentDone()
      requires Valid()
      modifies this`current
      ensures Valid() && current == null && Abstract() == old(Abstract())
    {
      current := null;
    }

    // ----- scans

    // The scan that iscsi_timeout_scan and iscsi_cancel_lun_pdus share but for the test: survivors behind a dropped
    // command close the gap, the counter goes back, and what was dropped is collected on a list of its own.
    method Scan(why: Reason) returns (dropped: Pdu?)
      requires Valid()
      modifies this`outqueue, this`queue, this`entries, this`cmdsn, queue`next, queue`cmdsn
      ensures Valid() && Abstract() == Session.Apply(old(Abstract()), Session.Scan(why))
      ensures queue == Kept(old(queue), old(entries), why)
      ensures IsList(dropped, Gone(old(queue), old(entries), why))
    {
      SiftWhole(queue, entries, why);
      dropped := ScanLoop(why);
    }

    method ScanLoop(why: Reason) returns (dropped: Pdu?)
      requires Valid()
      modifies this`outqueue, this`queue, this`entries, this`cmdsn, queue`next, queue`cmdsn
      ensures Valid() && queue == Sift(old(Whole()), why).q && entries == Sift(old(Whole()), why).es
      ensures IsList(dropped, Sift(old(Whole()), why).gone) && BehindBy(Sift(old(Whole()), why).gap, old(cmdsn))
    {
      ghost var s, p := queue, Whole();
      dropped := null;
      var gap := 0;
      var pdu := outqueue;
      while pdu != null
        invariant p.Fits() && queue == p.q && entries == p.es && gap == p.gap
        invariant pdu == if p.k < |queue| then queue[p.k] else null
        invariant Valid() && waiting == old(waiting) && Collected(dropped, p.gone)
        invariant Within(queue, s) && Within(p.gone, s)
        invariant Sift(p, why) == Sift(old(Whole()), why)
        invariant BehindBy(gap, old(cmdsn))
        decreases |p.q| - p.k
      {
        pdu, gap, dropped := ScanOne(pdu, why, gap, dropped, p, s, old(cmdsn));
        p := p.Next(why);
      }
    }

    ghost function Whole(): (p: Pass)
      requires |queue| == |entries|
      reads this
      ensures p.Fits()
    {
      Pass(queue, entries, 0, [], 0)
    }

    // The counter has been stepped back gap times from n.
    ghost predicate BehindBy(gap: nat, n: uint32)
      reads this`cmdsn
    {
      cmdsn == Wrap(n - gap)
    }

    // The number a dropped command had taken is given back.
    method GiveBack(ghost gap: nat, ghost n: uint32)
      requires BehindBy(gap, n)
      modifies this`cmdsn
      ensures BehindBy(gap + 1, n)
    {
      Session.WrapAdds(n - gap, -1);
      cmdsn := Wrap(cmdsn - 1);
    }

    // One round of a scan.
    method ScanOne(pdu: Pdu, why: Reason, gap: nat, dropped: Pdu?, ghost p: Pass, ghost all: seq<Pdu>, ghost n: uint32)
      returns (next: Pdu?, gap': nat, dropped': Pdu?)
      requires p.Fits() && queue == p.q && entries == p.es && gap == p.gap
      requires Valid() && p.k < |queue| && queue[p.k] == pdu && Collected(dropped, p.gone) && BehindBy(gap, n)
      requires Within(queue, all) && Within(p.gone, all)
      modifies this`outqueue, this`queue, this`entries, this`cmdsn, all`next, all`cmdsn
      ensures Valid() && queue == p.Next(why).q && entries == p.Next(why).es && gap' == p.Next(why).gap
      ensures next == if p.Next(why).k < |queue| then queue[p.Next(why).k] else null
      ensures Collected(dropped', p.Next(why).gone) && BehindBy(gap', n)
      ensures Within(queue, all) && Within(p.Next(why).gone, all)
    {
      ghost var k := p.k;
      assert LinkAt(queue, k) && ShowsAt(queue, entries, k);
      next := pdu.next;
      var drop := Matches(pdu, why);
      gap', dropped' := gap, dropped;
      Renumber(pdu, gap, k, dropped, p.gone);
      if drop {
        if !pdu.immediate && pdu.opcode != DATA_OUT {
          GiveBack(gap, n);
          gap' := gap + 1;
        }
        dropped' := DropAt(pdu, k, dropped, p.gone);
      }
    }

    // The renumbering of a queued PDU behind a gap leaves all links alone.
    method Renumber(pdu: Pdu, gap: nat, ghost k: nat, ghost dropped: Pdu?, ghost gone: seq<Pdu>)
      requires Valid() && k < |queue| && queue[k] == pdu && Collected(dropped, gone)
      modifies this`entries, pdu`cmdsn
      ensures Valid() && Collected(dropped, gone)
      ensures pdu.View() == Shift(old(entries)[k], gap) && entries == ShiftAt(old(entries), k, gap)
    {
      OnlyAt(queue, k);
      assert ShowsAt(queue, entries, k);
      if gap > 0 {
        pdu.cmdsn := Wrap(pdu.cmdsn - gap);
      }
      entries := entries[k := pdu.View()];
      forall j | 0 <= j < |queue| ensures LinkAt(queue, j) && ShowsAt(queue, entries, j) {
        assert old(LinkAt(queue, j)) && old(ShowsAt(queue, entries, j));
      }
      forall j | 0 <= j < |waiting| ensures LinkAt(waiting, j) {
        assert old(LinkAt(waiting, j));
      }
      forall j | 0 <= j < |gone| ensures LinkAt(gone, j) {
        assert old(LinkAt(gone, j));
      }
    }

    // ----- cancelling everything

    // iscsi_cancel_pdus: queued PDUs first, then the waiting ones, each cancelled once, in list order.
    method CancelPdus() returns (cancelled: seq<Pdu>)
      requires Valid()
      modifies this`outqueue, this`queue, this`entries, this`waitpdu, this`waiting, this`cmdsn
      modifies queue`next, waiting`next
      ensures Valid() && queue == [] && waiting == []
      ensures Abstract() == Session.Apply(old(Abstract()), Session.CancelAll)
      ensures cancelled == old(queue) + old(waiting)
    {
      cancelled := CancelQueued();
      ghost var w := waiting;
      var tmp := waitpdu;
      waitpdu := null;
      waiting := [];
      var rest := Drain(tmp, w);
      cancelled := cancelled + rest;
    }

    method CancelQueued() returns (cancelled: seq<Pdu>)
      requires Valid()
      modifies this`outqueue, this`queue, this`entries, this`cmdsn, queue`next
      ensures Valid() && queue == [] && entries == []
      ensures BehindBy(Commands(old(entries)), old(cmdsn)) && cancelled == old(queue)
    {
      ghost var s := queue;
      cancelled := [];
      ghost var gap: nat := 0;
      while outqueue != null
        invariant Valid() && cancelled + queue == s && Within(queue, s)
        invariant Commands(old(entries)) == gap + Commands(entries) && BehindBy(gap, old(cmdsn))
        decreases |queue|
      {
        var pdu;
        pdu, gap := CancelHead(gap, s, old(cmdsn));
        cancelled := Snoc(cancelled, pdu);
      }
    }

    // One round: the head of the queue leaves it, and a command gives its number back.
    method CancelHead(ghost gap: nat, ghost all: seq<Pdu>, ghost n: uint32) returns (pdu: Pdu, ghost gap': nat)
      requires Valid() && outqueue != null && BehindBy(gap, n) && Within(queue, all)
      modifies this`outqueue, this`queue, this`entries, this`cmdsn, all`next
      ensures Valid() && old(queue) == [pdu] + queue && Within(queue, all)
      ensures gap' + Commands(entries) == gap + Commands(old(entries)) && BehindBy(gap', n)
    {
      ghost var es := entries;
      pdu := outqueue;
      gap' := gap;
      assert ShowsAt(queue, entries, 0);
      TakeAt(pdu, 0);
      assert entries == es[1..];
      if !pdu.immediate && pdu.opcode != DATA_OUT {
        GiveBack(gap, n);
        gap' := gap + 1;
      }
    }

    // ----- receiving

    // The update of the window from a received PDU.
    method ProcessSerials(exp: uint32, max: uint32)
      modifies this`expcmdsn, this`maxcmdsn
      ensures Abstract() == Session.Apply(old(Abstract()), Session.Serials(exp, max))
    {
      if Compare(max, maxcmdsn) > 0 {
        maxcmdsn := max;
      }
      if Compare(exp, expcmdsn) > 0 {
        expcmdsn := exp;
      }
    }
  }

  // A detached list is taken apart from the front.
  method Drain(head: Pdu?, ghost w: seq<Pdu>) returns (drained: seq<Pdu>)
    requires IsList(head, w)
    modifies w`next
    ensures drained == w
  {
    var tmp := head;
    ghost var rest := w;
    drained := [];
    while tmp != null
      invariant IsList(tmp, rest) && drained + rest == w
      invariant forall j :: 0 <= j < |rest| ==> rest[j] in w
      decreases |rest|
    {
      var pdu: Pdu := tmp;
      WithoutAt(rest, pdu, 0);
      tmp := Remove(tmp, pdu, rest);
      drained := Snoc(drained, pdu);
      rest := rest[1..];
    }
  }

  // Where a scan ends that has got as far as p.
  ghost function Sift(p: Pass, why: Reason): Pass
    requires p.Fits()
    decreases |p.q| - p.k
  {
    if p.k == |p.q| then p else Sift(p.Next(why), why)
  }

  lemma Around<T>(s: seq<T>, k: nat)
    requires k < |s|
    ensures RemoveAt(s, k)[..k] == s[..k] && RemoveAt(s, k)[k..] == s[k + 1..]
    ensures s[k..][0] == s[k] && s[k..][1..] == s[k + 1..] && s[..k + 1] == s[..k] + [s[k]]
  {
  }

  lemma Inserted(s: seq<Pdu>, i: nat, p: Pdu)
    requires i <= |s|
    ensures multiset(s[..i] + [p] + s[i..]) == multiset(s) + multiset{p}
  {
    assert s == s[..i] + s[i..];
  }

  // One step on the values, for the two cases of a scan.
  lemma DropStep(es: seq<Entry>, k: nat, why: Reason, gap: nat)
    requires k < |es| && Drops(why, es[k])
    ensures var r := RemoveAt(es, k); var g := gap + Weight(es[k]);
            && es[..k] + Cull(es[k..], why, gap) == r[..k] + Cull(r[k..], why, g)
            && gap + Dropped(es[k..], why) == g + Dropped(r[k..], why)
  {
    Around(es, k);
  }

  lemma KeepStep(es: seq<Entry>, k: nat, why: Reason, gap: nat)
    requires k < |es| && !Drops(why, es[k])
    ensures var r := ShiftAt(es, k, gap);
            && es[..k] + Cull(es[k..], why, gap) == r[..k + 1] + Cull(r[k + 1..], why, gap)
            && Dropped(es[k..], why) == Dropped(r[k + 1..], why)
  {
    var r := ShiftAt(es, k, gap);
    Around(es, k);
    assert r[k + 1..] == es[k + 1..] && r[..k + 1] == es[..k] + [Shift(es[k], gap)];
  }

  lemma {:induction false} SiftValues(p: Pass, why: Reason)
    requires p.Fits()
    ensures Sift(p, why).es == p.es[..p.k] + Cull(p.es[p.k..], why, p.gap)
    ensures Sift(p, why).gap == p.gap + Dropped(p.es[p.k..], why)
    decreases |p.q| - p.k
  {
    if p.k < |p.es| {
      SiftValues(p.Next(why), why);
      if Drops(why, p.es[p.k]) {
        DropStep(p.es, p.k, why, p.gap);
      } else {
        KeepStep(p.es, p.k, why, p.gap);
      }
    }
  }

  lemma {:induction false} SiftQueue(p: Pass, why: Reason)
    requires p.Fits()
    ensures Sift(p, why).q == p.q[..p.k] + Kept(p.q[p.k..], p.es[p.k..], why)
    decreases |p.q| - p.k
  {
    if p.k < |p.q| {
      SiftQueue(p.Next(why), why);
      Around(p.q, p.k);
      Around(p.es, p.k);
      assert !Drops(why, p.es[p.k]) ==> ShiftAt(p.es, p.k, p.gap)[p.k + 1..] == p.es[p.k + 1..];
    }
  }

  lemma {:induction false} SiftGone(p: Pass, why: Reason)
    requires p.Fits()
    ensures Sift(p, why).gone == p.gone + Gone(p.q[p.k..], p.es[p.k..], why)
    decreases |p.q| - p.k
  {
    if p.k < |p.q| {
      SiftGone(p.Next(why), why);
      Around(p.q, p.k);
      Around(p.es, p.k);
      assert !Drops(why, p.es[p.k]) ==> ShiftAt(p.es, p.k, p.gap)[p.k + 1..] == p.es[p.k + 1..];
    }
  }

  lemma SiftWhole(q: seq<Pdu>, es: seq<Entry>, why: Reason)
    requires |q| == |es|
    ensures var r := Sift(Pass(q, es, 0, [], 0), why);
            r.q == Kept(q, es, why) && r.es == Cull(es, why, 0) && r.gone == Gone(q, es, why) &&
              r.gap == Dropped(es, why)
  {
    SiftValues(Pass(q, es, 0, [], 0), why);
    SiftQueue(Pass(q, es, 0, [], 0), why);
    SiftGone(Pass(q, es, 0, [], 0), why);
    assert q[0..] == q && es[0..] == es && q[..0] == [] && es[..0] == [];
  }

  // The test of the two scans on one PDU.
  method Matches(pdu: Pdu, why: Reason) returns (drop: bool)
    ensures drop == Drops(why, pdu.View())
  {
    match why
    case Expired(now) =>
      if pdu.timeout == 0 {
        return false;
      }
      if now < pdu.timeout {
        return false;
      }
      return !pdu.immediate && pdu.opcode != DATA_OUT;
    case OnLun(lun) =>
      if pdu.taskLun == None || pdu.taskLun.value != lun {
        return false;
      }
      return true;
  }
}
