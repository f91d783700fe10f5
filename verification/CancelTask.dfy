// iscsi_scsi_cancel_task in lib/iscsi-command.c on the linked lists of a context, and what it does to the numbering.
module CancelTask {
  import opened Serial32
  import opened CmdSn
  import opened PduList
  import opened OutQueue

  // The PDUs of a task are the ones with its tag: the command and its DATA-OUTs.
  function OfTask(s: seq<Pdu>, itt: uint32): seq<Pdu> {
    if s == [] then [] else (if s[0].itt == itt then [s[0]] else []) + OfTask(s[1..], itt)
  }

  function Others(s: seq<Pdu>, itt: uint32): seq<Pdu> {
    if s == [] then [] else (if s[0].itt == itt then [] else [s[0]]) + Others(s[1..], itt)
  }

  // Where the first of them is; the length of s if there is none.
  function FirstAt(s: seq<Pdu>, itt: uint32): (i: nat)
    ensures i <= |s| && (i < |s| <==> OfTask(s, itt) != [])
    ensures i < |s| ==> s[i] == OfTask(s, itt)[0]
  {
    if s == [] || s[0].itt == itt then 0 else 1 + FirstAt(s[1..], itt)
  }

  // The entries of the others, with the numbers they had.
  function OtherEntries(s: seq<Pdu>, es: seq<Entry>, itt: uint32): seq<Entry>
    requires |s| == |es|
  {
    if s == [] then [] else (if s[0].itt == itt then [] else [es[0]]) + OtherEntries(s[1..], es[1..], itt)
  }

  // ----- the numbering

  lemma {:induction false} OthersOfConcat(s: seq<Pdu>, es: seq<Entry>, itt: uint32, k: nat)
    requires |s| == |es| && k <= |s|
    ensures OtherEntries(s, es, itt) == OtherEntries(s[..k], es[..k], itt) + OtherEntries(s[k..], es[k..], itt)
  {
    if k > 0 {
      OthersOfConcat(s[1..], es[1..], itt, k - 1);
      assert s[..k][1..] == s[1..][..k - 1] && es[..k][1..] == es[1..][..k - 1];
      assert s[1..][k - 1..] == s[k..] && es[1..][k - 1..] == es[k..];
    }
  }

  lemma {:induction false} OthersKeepNumbers(s: seq<Pdu>, es: seq<Entry>, itt: uint32)
    requires |s| == |es| && forall i :: 0 <= i < |s| && s[i].itt == itt ==> !IsCommand(es[i])
    ensures CommandNumbers(OtherEntries(s, es, itt)) == CommandNumbers(es)
  {
    if s != [] {
      assert forall i :: 0 <= i < |s[1..]| ==> s[1..][i] == s[i + 1] && es[1..][i] == es[i + 1];
      OthersKeepNumbers(s[1..], es[1..], itt);
      var rest := OtherEntries(s[1..], es[1..], itt);
      if s[0].itt == itt {
        assert [] + rest == rest;
      } else {
        OneMore(es[0], rest);
      }
    }
  }

  lemma OneMore(e: Entry, rest: seq<Entry>)
    ensures CommandNumbers([e] + rest) == (if IsCommand(e) then [e.cmdsn] else []) + CommandNumbers(rest)
  {
    assert ([e] + rest)[1..] == rest;
  }

  // Tags are given to one command at a time; the DATA-OUTs of the task share it.
  predicate OneCommand(s: seq<Pdu>, es: seq<Entry>, itt: uint32, j: nat) {
    && |s| == |es| && j < |s| && s[j].itt == itt && IsCommand(es[j])
    && forall i :: 0 <= i < |s| && i != j && s[i].itt == itt ==> !IsCommand(es[i])
  }

  // What is left of a queue when its command at j and the DATA-OUTs of the same task are cancelled is gapless with the
  // counter stepped back if and only if no command stood behind it.
  lemma CancelLeavesGap(s: seq<Pdu>, es: seq<Entry>, cmdsn: uint32, itt: uint32, j: nat)
    requires OneCommand(s, es, itt, j) && Numbered(es, cmdsn)
    ensures Gapless(CommandNumbers(OtherEntries(s, es, itt)), Wrap(cmdsn - 1)) <==> Commands(es[j + 1..]) == 0
  {
    CancelTaskLeavesGap(es, cmdsn, j);
    OthersAround(s, es, itt, j);
  }

  lemma OthersAround(s: seq<Pdu>, es: seq<Entry>, itt: uint32, j: nat)
    requires OneCommand(s, es, itt, j)
    ensures CommandNumbers(OtherEntries(s, es, itt)) == CommandNumbers(es[..j] + es[j + 1..])
  {
    OthersOfConcat(s, es, itt, j);
    assert s[j..][1..] == s[j + 1..] && es[j..][1..] == es[j + 1..];
    var a, b := OtherEntries(s[..j], es[..j], itt), OtherEntries(s[j + 1..], es[j + 1..], itt);
    assert OtherEntries(s[j..], es[j..], itt) == b;
    OthersKeepNumbers(s[..j], es[..j], itt);
    OthersKeepNumbers(s[j + 1..], es[j + 1..], itt);
    NumbersOfConcat(a, b);
    NumbersOfConcat(es[..j], es[j + 1..]);
  }

  // ----- the source's loops

  lemma OfTaskSplits(s: seq<Pdu>, k: nat)
    requires k < |s|
    ensures s[k..][0] == s[k] && s[k..][1..] == s[k + 1..]
  {
  }

  // The walk over the wait list.
  method FindWaiting(context: Context, itt: uint32) returns (pdu: Pdu?, ghost i: nat)
    requires context.Valid()
    ensures i == FirstAt(context.waiting, itt)
    ensures pdu == var k := FirstAt(context.waiting, itt); if k < |context.waiting| then context.waiting[k] else null
  {
    pdu := context.waitpdu;
    i := 0;
    ghost var w := context.waiting;
    while pdu != null
      invariant 0 <= i <= |w| && pdu == (if i < |w| then w[i] else null)
      invariant FirstAt(w, itt) == i + FirstAt(w[i..], itt)
      decreases |w| - i
    {
      OfTaskSplits(w, i);
      if pdu.itt == itt {
        return;
      }
      assert LinkAt(w, i);
      pdu := pdu.next;
      i := i + 1;
    }
  }

  // How far the walk over the queue has got: `left` PDUs have been passed and stay, `rest` is still to come.
  ghost predicate Walked(s: seq<Pdu>, es: seq<Entry>, itt: uint32, left: seq<Pdu>, leftEs: seq<Entry>, rest: seq<Pdu>,
                         restEs: seq<Entry>, gone: seq<Pdu>)
  {
    && |s| == |es| && |left| == |leftEs| && |rest| == |restEs|
    && Others(s, itt) == left + Others(rest, itt)
    && OtherEntries(s, es, itt) == leftEs + OtherEntries(rest, restEs, itt)
    && OfTask(s, itt) == gone + OfTask(rest, itt)
  }

  lemma WalkOn(s: seq<Pdu>, es: seq<Entry>, itt: uint32, left: seq<Pdu>, leftEs: seq<Entry>, rest: seq<Pdu>,
               restEs: seq<Entry>, gone: seq<Pdu>)
    requires Walked(s, es, itt, left, leftEs, rest, restEs, gone) && rest != []
    ensures rest[0].itt == itt ==> Walked(s, es, itt, left, leftEs, rest[1..], restEs[1..], gone + [rest[0]])
    ensures rest[0].itt != itt ==>
              Walked(s, es, itt, left + [rest[0]], leftEs + [restEs[0]], rest[1..], restEs[1..], gone)
  {
  }

  lemma WalkedAll(s: seq<Pdu>, es: seq<Entry>, itt: uint32, left: seq<Pdu>, leftEs: seq<Entry>, rest: seq<Pdu>,
                  restEs: seq<Entry>, gone: seq<Pdu>)
    requires Walked(s, es, itt, left, leftEs, rest, restEs, gone) && rest == []
    ensures left + rest == Others(s, itt) && leftEs + restEs == OtherEntries(s, es, itt) && gone == OfTask(s, itt)
  {
  }

  // Every PDU of the task leaves the queue.
  method TakeTask(context: Context, itt: uint32) returns (dropped: Pdu?)
    requires context.Valid()
    modifies context`outqueue, context`queue, context`entries, context.queue`next
    ensures context.Valid() && context.queue == Others(old(context.queue), itt)
    ensures context.entries == OtherEntries(old(context.queue), old(context.entries), itt)
    ensures IsList(dropped, OfTask(old(context.queue), itt))
  {
    ghost var s, es := context.queue, context.entries;
    ghost var left, leftEs, rest, restEs, gone: seq<Pdu> := [], [], s, es, [];
    dropped := null;
    var pdu := context.outqueue;
    while pdu != null
      invariant context.Valid() && context.waiting == old(context.waiting) && context.Collected(dropped, gone)
      invariant context.queue == left + rest && context.entries == leftEs + restEs
      invariant Walked(s, es, itt, left, leftEs, rest, restEs, gone)
      invariant pdu == if rest == [] then null else rest[0]
      invariant context.Within(context.queue, s) && context.Within(gone, s)
      decreases |rest|
    {
      WalkOn(s, es, itt, left, leftEs, rest, restEs, gone);
      ghost var mine := rest[0].itt == itt;
      pdu, dropped := TakeOne(context, pdu, itt, dropped, gone, left, leftEs, rest, restEs, s);
      if mine {
        gone := gone + [rest[0]];
      } else {
        left, leftEs := left + [rest[0]], leftEs + [restEs[0]];
      }
      rest, restEs := rest[1..], restEs[1..];
    }
    WalkedAll(s, es, itt, left, leftEs, rest, restEs, gone);
  }

  // One turn of the walk.
  method TakeOne(context: Context, pdu: Pdu, itt: uint32, dropped: Pdu?, ghost gone: seq<Pdu>, ghost left: seq<Pdu>,
                 ghost leftEs: seq<Entry>, ghost rest: seq<Pdu>, ghost restEs: seq<Entry>, ghost all: seq<Pdu>)
    returns (next: Pdu?, dropped': Pdu?)
    requires context.Valid() && context.Collected(dropped, gone)
    requires context.queue == left + rest && context.entries == leftEs + restEs
    requires |left| == |leftEs| && |rest| == |restEs| > 0 && pdu == rest[0]
    requires context.Within(context.queue, all) && context.Within(gone, all)
    modifies context`outqueue, context`queue, context`entries, all`next
    ensures context.Valid() && context.Collected(dropped', if pdu.itt == itt then gone + [pdu] else gone)
    ensures context.queue == (if pdu.itt == itt then left else left + [pdu]) + rest[1..]
    ensures context.entries == (if pdu.itt == itt then leftEs else leftEs + [restEs[0]]) + restEs[1..]
    ensures next == if |rest| > 1 then rest[1] else null
    ensures context.Within(context.queue, all) && context.Within(if pdu.itt == itt then gone + [pdu] else gone, all)
  {
    ghost var k := |left|;
    assert LinkAt(context.queue, k);
    next := pdu.next;
    dropped' := dropped;
    Cut(left, rest);
    Cut(leftEs, restEs);
    if pdu.itt == itt {
      dropped' := context.DropAt(pdu, k, dropped, gone);
      assert Snoc(gone, pdu) == gone + [pdu];
    }
  }

  lemma Cut<T>(left: seq<T>, rest: seq<T>)
    requires rest != []
    ensures RemoveAt(left + rest, |left|) == left + rest[1..] && left + rest == (left + [rest[0]]) + rest[1..]
  {
  }

  // A waiting PDU leaves its list.
  method Unpark(context: Context, pdu: Pdu, ghost i: nat)
    requires context.Valid() && i < |context.waiting| && context.waiting[i] == pdu
    modifies context`waitpdu, context`waiting, context.waiting`next
    ensures context.Valid() && context.waiting == RemoveAt(old(context.waiting), i)
  {
    ghost var w := context.waiting;
    OnlyAt(w, i);
    WithoutAt(w, pdu, i);
    context.waitpdu := Remove(context.waitpdu, pdu, w);
    context.waiting := w[..i] + w[i + 1..];
    ghost var q, es := context.queue, context.entries;
    forall j | 0 <= j < |q| ensures LinkAt(q, j) && ShowsAt(q, es, j) {
      assert old(LinkAt(q, j)) && old(ShowsAt(q, es, j)) && q[j] in q;
    }
  }

  // iscsi_scsi_cancel_task: a waiting PDU of the task is cancelled alone; otherwise all queued ones leave the queue,
  // but only the first of them is cancelled and gives its number back.
  method Cancel(context: Context, itt: uint32) returns (found: bool, cancelled: seq<Pdu>)
    requires context.Valid()
    modifies context`outqueue, context`queue, context`entries, context`waitpdu, context`waiting, context`cmdsn
    modifies context.queue`next, context.waiting`next
    ensures context.Valid()
    ensures var w, q, es := old(context.waiting), old(context.queue), old(context.entries);
            var i, j := FirstAt(w, itt), FirstAt(q, itt);
            if i < |w| then
              && found && cancelled == [w[i]] && context.waiting == RemoveAt(w, i)
              && context.queue == q && context.entries == es && context.cmdsn == old(context.cmdsn)
            else
              && found == (j < |q|) && cancelled == (if found then [q[j]] else []) && context.waiting == w
              && context.queue == Others(q, itt) && context.entries == OtherEntries(q, es, itt)
              && context.cmdsn == Wrap(old(context.cmdsn) - if found && IsCommand(es[j]) then 1 else 0)
  {
    ghost var q, j := context.queue, FirstAt(context.queue, itt);
    assert j < |q| ==> ShowsAt(q, context.entries, j);
    var pdu;
    ghost var i;
    pdu, i := FindWaiting(context, itt);
    if pdu != null {
      Unpark(context, pdu, i);
      return true, [pdu];
    }
    var dropped := TakeTask(context, itt);
    if dropped == null {
      return false, [];
    }
    if !dropped.immediate && dropped.opcode != DATA_OUT {
      context.cmdsn := Wrap(context.cmdsn - 1);
    }
    return true, [dropped];
  }
}
