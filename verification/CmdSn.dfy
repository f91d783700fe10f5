// The outgoing queue and the numbering of commands, on values (lib/socket.c, lib/pdu.c, lib/iscsi-command.c).
// OutQueue.dfy ties the linked list of the source to the functions of this module.
module CmdSn {
  import opened Common
  import opened Serial32

  const DATA_OUT := 0x05

  // A queued PDU: the immediate bit (0x40) and the opcode (0x3f) of its first header byte, its CmdSN, its expiry
  // time (0 for none) and the logical unit of its task, if it has one.
  datatype Entry = Entry(immediate: bool, opcode: int, cmdsn: uint32, timeout: int, taskLun: Option<int>)

  predicate IsImmediate(e: Entry) {
    e.immediate
  }

  predicate IsDataOut(e: Entry) {
    e.opcode == DATA_OUT
  }

  predicate IsCommand(e: Entry) {
    !IsImmediate(e) && !IsDataOut(e)
  }

  // ----- inserting

  // An immediate PDU takes the number of the first entry that is not a DATA-OUT.
  function FirstNumber(es: seq<Entry>, own: uint32): uint32 {
    if es == [] then own
    else if !IsDataOut(es[0]) then es[0].cmdsn
    else FirstNumber(es[1..], own)
  }

  predicate GoesBefore(e: Entry, current: Entry) {
    Compare(e.cmdsn, current.cmdsn) < 0 || (IsImmediate(e) && !IsImmediate(current))
  }

  function Renumbered(es: seq<Entry>, e: Entry): Entry {
    if IsImmediate(e) then e.(cmdsn := FirstNumber(es, e.cmdsn)) else e
  }

  function Place(es: seq<Entry>, e: Entry): (i: nat)
    ensures i <= |es|
  {
    if es == [] || GoesBefore(e, es[0]) then 0 else 1 + Place(es[1..], e)
  }

  function Insert(es: seq<Entry>, e: Entry): seq<Entry> {
    var x := Renumbered(es, e);
    var i := Place(es, x);
    es[..i] + [x] + es[i..]
  }

  // ----- culling: the scans that drop queued PDUs and close the gap they leave

  datatype Reason = Expired(now: int) | OnLun(lun: int)

  predicate Drops(why: Reason, e: Entry) {
    match why
    case Expired(now) => e.timeout != 0 && now >= e.timeout && IsCommand(e)
    case OnLun(lun) => e.taskLun == Some(lun)
  }

  function Shift(e: Entry, gap: nat): Entry {
    if gap > 0 then e.(cmdsn := Wrap(e.cmdsn - gap)) else e
  }

  function Cull(es: seq<Entry>, why: Reason, gap: nat): seq<Entry> {
    if es == [] then []
    else if Drops(why, es[0]) then Cull(es[1..], why, gap + Weight(es[0]))
    else [Shift(es[0], gap)] + Cull(es[1..], why, gap)
  }

  function Weight(e: Entry): nat {
    if IsCommand(e) then 1 else 0
  }

  // Commands in the queue, and those that a cull drops.
  function Commands(es: seq<Entry>): (n: nat)
    ensures n <= |es|
  {
    if es == [] then 0 else Weight(es[0]) + Commands(es[1..])
  }

  function Dropped(es: seq<Entry>, why: Reason): (n: nat) {
    if es == [] then 0
    else (if Drops(why, es[0]) then Weight(es[0]) else 0) + Dropped(es[1..], why)
  }

  // ----- the numbering invariant

  ghost predicate NoImmediate(es: seq<Entry>) {
    forall i :: 0 <= i < |es| ==> !IsImmediate(es[i])
  }

  // With cmdsn the next number to hand out: every command is as old as the commands from it to the end of the
  // queue, so the queue carries exactly cmdsn-k .. cmdsn-1 in order; an immediate PDU stands before all commands
  // and carries the number of the first; a DATA-OUT carries the number of a command that does not follow it.
  ghost predicate Numbered(es: seq<Entry>, cmdsn: uint32) {
    es == [] ||
    (&& Numbered(es[1..], cmdsn)
     && HeadNumbered(es[0], Commands(es), cmdsn)
     && (IsCommand(es[0]) ==> NoImmediate(es[1..])))
  }

  ghost predicate HeadNumbered(e: Entry, commands: nat, cmdsn: uint32) {
    && (IsDataOut(e) ==> !IsImmediate(e) && Age(cmdsn, e.cmdsn) >= commands)
    && (!IsDataOut(e) ==> Age(cmdsn, e.cmdsn) == commands)
  }

  // No queued number is 2^31 or more behind the next one: what serial comparison needs.
  ghost predicate InWindow(es: seq<Entry>, cmdsn: uint32) {
    forall i :: 0 <= i < |es| ==> Age(cmdsn, es[i].cmdsn) < H
  }

  // The commands alone, with their numbers.
  function CommandNumbers(es: seq<Entry>): (ns: seq<uint32>)
    ensures |ns| == Commands(es)
  {
    if es == [] then []
    else if IsCommand(es[0]) then [es[0].cmdsn] + CommandNumbers(es[1..])
    else CommandNumbers(es[1..])
  }

  // The invariant in plain terms: k queued commands carry exactly cmdsn-k .. cmdsn-1, in queue order.
  lemma {:induction false} QueueIsGapless(es: seq<Entry>, cmdsn: uint32, i: nat)
    requires Numbered(es, cmdsn) && i < Commands(es)
    ensures CommandNumbers(es)[i] == Wrap(cmdsn - Commands(es) + i)
  {
    if IsCommand(es[0]) {
      if i == 0 {
        AgeShifts(cmdsn, es[0].cmdsn, 0 - Commands(es), 0);
        NumberOfAge(cmdsn, es[0].cmdsn);
      } else {
        QueueIsGapless(es[1..], cmdsn, i - 1);
      }
    } else {
      QueueIsGapless(es[1..], cmdsn, i);
    }
  }

  lemma NumberOfAge(n: uint32, s: uint32)
    ensures s == Wrap(n - Age(n, s))
  {
  }

  // ----- inserting keeps the numbering

  // A fresh command lands at the end of the queue exactly while all queued numbers are within the half range.
  lemma {:induction false} FreshCommandGoesLast(es: seq<Entry>, e: Entry)
    requires IsCommand(e)
    ensures Place(es, e) == |es| <==> InWindow(es, e.cmdsn)
  {
    if es != [] {
      FreshCommandGoesLast(es[1..], e);
      assert Compare(e.cmdsn, es[0].cmdsn) < 0 <==> Age(e.cmdsn, es[0].cmdsn) >= H;
      assert InWindow(es, e.cmdsn) <==> Age(e.cmdsn, es[0].cmdsn) < H && InWindow(es[1..], e.cmdsn) by {
        assert forall i :: 1 <= i < |es| ==> es[i] == es[1..][i - 1];
      }
    }
  }

  lemma HeadAges(e: Entry, n: nat, cmdsn: uint32)
    requires HeadNumbered(e, n, cmdsn) && Age(cmdsn, e.cmdsn) < H
    ensures HeadNumbered(e, n + 1, Wrap(cmdsn + 1))
  {
    AgeShifts(cmdsn, e.cmdsn, 1, 0);
  }

  lemma {:induction false} AppendKeepsNumbering(es: seq<Entry>, cmdsn: uint32, e: Entry, next: uint32)
    requires Numbered(es, cmdsn) && InWindow(es, cmdsn) && IsCommand(e) && e.cmdsn == cmdsn
    requires next == Wrap(cmdsn + 1)
    ensures Numbered(es + [e], next)
  {
    var r := es + [e];
    CommandsOfConcat(es, [e]);
    assert [e][1..] == [];
    if es == [] {
      HeadAges(e, 0, cmdsn);
      assert r == [e] && Numbered(r[1..], next);
    } else {
      var t := es[1..];
      assert r[1..] == t + [e];
      assert InWindow(t, cmdsn);
      AppendKeepsNumbering(t, cmdsn, e, next);
      HeadAges(es[0], Commands(es), cmdsn);
      if IsCommand(es[0]) {
        assert NoImmediate(t + [e]);
      }
    }
  }

  // Issuing: the command takes the counter, the counter moves on, the command goes to the end.
  lemma IssueKeepsNumbering(es: seq<Entry>, cmdsn: uint32, e: Entry)
    requires Numbered(es, cmdsn) && InWindow(es, cmdsn) && IsCommand(e) && e.cmdsn == cmdsn
    ensures Insert(es, e) == es + [e]
    ensures Numbered(Insert(es, e), Wrap(cmdsn + 1)) && Commands(Insert(es, e)) == Commands(es) + 1
  {
    FreshCommandGoesLast(es, e);
    AppendKeepsNumbering(es, cmdsn, e, Wrap(cmdsn + 1));
    CommandsOfConcat(es, [e]);
    assert [e][1..] == [];
  }

  lemma {:induction false} CommandsOfConcat(a: seq<Entry>, b: seq<Entry>)
    ensures Commands(a + b) == Commands(a) + Commands(b)
  {
    if a == [] {
      assert a + b == b;
    } else {
      assert (a + b)[1..] == a[1..] + b;
      CommandsOfConcat(a[1..], b);
    }
  }

  // An immediate PDU made with the current counter keeps the numbering: it becomes as old as the first command.
  lemma {:induction false} FirstNumberAge(es: seq<Entry>, cmdsn: uint32)
    requires Numbered(es, cmdsn)
    ensures Age(cmdsn, FirstNumber(es, cmdsn)) == Commands(es)
  {
    if es != [] && IsDataOut(es[0]) {
      FirstNumberAge(es[1..], cmdsn);
    }
  }

  lemma {:induction false} PlacedImmediateKeepsNumbering(es: seq<Entry>, cmdsn: uint32, x: Entry)
    requires Numbered(es, cmdsn) && InWindow(es, cmdsn)
    requires IsImmediate(x) && !IsDataOut(x) && Age(cmdsn, x.cmdsn) == Commands(es) < H
    ensures var i := Place(es, x); Numbered(es[..i] + [x] + es[i..], cmdsn) && Commands(es[..i]) == 0
  {
    var i := Place(es, x);
    var r := es[..i] + [x] + es[i..];
    if i == 0 {
      assert r == [x] + es && r[1..] == es;
    } else {
      CompareByAge(cmdsn, x.cmdsn, es[0].cmdsn);
      assert IsImmediate(es[0]);
      assert InWindow(es[1..], cmdsn);
      PlacedImmediateKeepsNumbering(es[1..], cmdsn, x);
      var t := es[1..];
      assert t[..i - 1] == es[1..i] && t[i - 1..] == es[i..];
      assert r[1..] == t[..i - 1] + [x] + t[i - 1..];
      assert es[..i][1..] == t[..i - 1];
      InsertedWeighs(t, i - 1, x);
    }
  }

  lemma {:induction false} InsertedWeighs(es: seq<Entry>, i: nat, x: Entry)
    requires i <= |es|
    ensures Commands(es[..i] + [x] + es[i..]) == Commands(es) + Weight(x)
  {
    var r := es[..i] + [x] + es[i..];
    if i == 0 {
      assert r[1..] == es;
    } else {
      var t := es[1..];
      InsertedWeighs(t, i - 1, x);
      assert r[1..] == t[..i - 1] + [x] + t[i - 1..];
    }
  }

  lemma ImmediateKeepsNumbering(es: seq<Entry>, cmdsn: uint32, e: Entry)
    requires Numbered(es, cmdsn) && InWindow(es, cmdsn)
    requires IsImmediate(e) && !IsDataOut(e) && e.cmdsn == cmdsn
    ensures Numbered(Insert(es, e), cmdsn) && Commands(Insert(es, e)) == Commands(es)
  {
    FirstNumberAge(es, cmdsn);
    var x := Renumbered(es, e);
    PlacedImmediateKeepsNumbering(es, cmdsn, x);
    InsertedWeighs(es, Place(es, x), x);
  }

  // A DATA-OUT carries the number of an issued command, so it is at least one behind the counter.
  lemma {:induction false} DataOutKeepsNumbering(es: seq<Entry>, cmdsn: uint32, e: Entry)
    requires Numbered(es, cmdsn) && InWindow(es, cmdsn)
    requires IsDataOut(e) && !IsImmediate(e) && 1 <= Age(cmdsn, e.cmdsn) < H
    ensures Numbered(Insert(es, e), cmdsn) && Commands(Insert(es, e)) == Commands(es)
    decreases |es|
  {
    var i := Place(es, e);
    var r := Insert(es, e);
    InsertedWeighs(es, i, e);
    if i == 0 {
      assert r == [e] + es && r[1..] == es;
      if es != [] {
        CompareByAge(cmdsn, e.cmdsn, es[0].cmdsn);
      }
    } else {
      var t := es[1..];
      assert InWindow(t, cmdsn);
      DataOutKeepsNumbering(t, cmdsn, e);
      assert t[..i - 1] == es[1..i] && t[i - 1..] == es[i..];
      assert r[1..] == Insert(t, e);
      if IsCommand(es[0]) {
        assert forall j :: 0 <= j < |t| ==> !IsImmediate(t[j]);
        assert NoImmediate(Insert(t, e));
      }
    }
  }

  // ----- where a DATA-OUT goes

  lemma {:induction false} PlaceIsFirst(es: seq<Entry>, x: Entry)
    ensures forall k :: 0 <= k < Place(es, x) ==> !GoesBefore(x, es[k])
    ensures Place(es, x) < |es| ==> GoesBefore(x, es[Place(es, x)])
  {
    if es != [] && !GoesBefore(x, es[0]) {
      PlaceIsFirst(es[1..], x);
    }
  }

  // DATA-OUTs of one command that are queued one after the other keep their order: the next one goes right behind.
  lemma {:induction false} NextGoesBehind(es: seq<Entry>, x: Entry, y: Entry)
    requires !IsImmediate(x) && !IsImmediate(y) && x.cmdsn == y.cmdsn
    ensures Place(Insert(es, x), y) == Place(es, x) + 1
  {
    if es == [] || GoesBefore(x, es[0]) {
      assert Insert(es, x) == [x] + es;
      assert Insert(es, x)[1..] == es;
    } else {
      NextGoesBehind(es[1..], x, y);
      assert Insert(es, x)[1..] == Insert(es[1..], x);
    }
  }

  lemma {:induction false} PlaceIs(es: seq<Entry>, x: Entry, i: nat)
    requires i <= |es| && (forall k :: 0 <= k < i ==> !GoesBefore(x, es[k])) && (i < |es| ==> GoesBefore(x, es[i]))
    ensures Place(es, x) == i
  {
    if i > 0 {
      assert forall k :: 0 <= k < i - 1 ==> es[1..][k] == es[k + 1];
      PlaceIs(es[1..], x, i - 1);
    }
  }

  // Whether a PDU is queued behind all earlier ones with its number: if and only if nothing newer stands before the
  // last of these. Numbers before its own can be newer: an immediate PDU goes to the front with the number of the first
  // command, so a DATA-OUT that is queued after it goes ahead of the DATA-OUTs of the same command that wait behind it.
  lemma BehindEqualNumbers(es: seq<Entry>, y: Entry)
    requires !IsImmediate(y)
    ensures (forall k :: 0 <= k < |es| && es[k].cmdsn == y.cmdsn ==> k < Place(es, y)) <==>
            (forall j, k :: 0 <= j < k < |es| && es[k].cmdsn == y.cmdsn ==> Compare(y.cmdsn, es[j].cmdsn) >= 0)
  {
    PlaceIsFirst(es, y);
    var p := Place(es, y);
    if p < |es| && forall j, k :: 0 <= j < k < |es| && es[k].cmdsn == y.cmdsn ==> Compare(y.cmdsn, es[j].cmdsn) >= 0 {
      forall k | 0 <= k < |es| && es[k].cmdsn == y.cmdsn ensures k < p {
        assert Compare(y.cmdsn, es[p].cmdsn) < 0;
      }
    }
  }

  // A train of DATA-OUTs of one command that is queued without interruption stands together, in order.
  function InsertAll(es: seq<Entry>, xs: seq<Entry>): seq<Entry> {
    if xs == [] then es else Insert(InsertAll(es, xs[..|xs| - 1]), xs[|xs| - 1])
  }

  predicate OneNumber(xs: seq<Entry>, n: uint32) {
    forall k :: 0 <= k < |xs| ==> !IsImmediate(xs[k]) && xs[k].cmdsn == n
  }

  lemma {:induction false} TrainStandsTogether(es: seq<Entry>, xs: seq<Entry>, n: uint32)
    requires xs != [] && OneNumber(xs, n)
    ensures var i := Place(es, xs[0]); InsertAll(es, xs) == es[..i] + xs + es[i..]
  {
    var k := |xs| - 1;
    var i, front, y := Place(es, xs[0]), xs[..k], xs[k];
    PlaceIsFirst(es, xs[0]);
    if k == 0 {
      assert InsertAll(es, front) == es && xs == [y];
    } else {
      assert front[0] == xs[0];
      TrainStandsTogether(es, front, n);
      OneStandsBehind(es[..i], front, es[i..], y);
      Regroup(es[..i], front, [y]);
      assert xs == front + [y];
    }
  }

  lemma OneStandsBehind(a: seq<Entry>, front: seq<Entry>, b: seq<Entry>, y: Entry)
    requires !IsImmediate(y)
    requires forall j :: 0 <= j < |a| ==> !GoesBefore(y, a[j])
    requires forall j :: 0 <= j < |front| ==> !GoesBefore(y, front[j])
    requires b != [] ==> GoesBefore(y, b[0])
    ensures Insert(a + front + b, y) == a + front + [y] + b
  {
    var was := a + front + b;
    PlaceIs(was, y, |a + front|);
    assert was[..|a + front|] == a + front && was[|a + front|..] == b;
  }

  // Nothing that is queued later comes between PDUs with one number that stand together.
  lemma TrainIsNotSplit(es: seq<Entry>, i: nat, n: nat, number: uint32, y: Entry)
    requires i + n <= |es| && OneNumber(es[i..i + n], number)
    ensures var p := Place(es, Renumbered(es, y)); p <= i || i + n <= p
  {
    var x := Renumbered(es, y);
    PlaceIsFirst(es, x);
    assert i < Place(es, x) ==> !GoesBefore(x, es[i]);
    forall j | i <= j < i + n ensures !IsImmediate(es[j]) && es[j].cmdsn == number {
      assert es[i..i + n][j - i] == es[j];
    }
  }

  lemma {:induction false} FirstIsOldest(es: seq<Entry>, cmdsn: uint32, k: nat)
    requires Numbered(es, cmdsn) && k < |es| && IsCommand(es[k])
    ensures Age(cmdsn, es[k].cmdsn) <= Commands(es) <= Age(cmdsn, es[0].cmdsn)
  {
    if k > 0 {
      FirstIsOldest(es[1..], cmdsn, k - 1);
      NumberOfCommands(es[1..], cmdsn, k - 1);
    }
  }

  lemma {:induction false} NumberOfCommands(es: seq<Entry>, cmdsn: uint32, k: nat)
    requires Numbered(es, cmdsn) && k < |es| && IsCommand(es[k])
    ensures Age(cmdsn, es[k].cmdsn) <= Commands(es)
  {
    if k > 0 {
      NumberOfCommands(es[1..], cmdsn, k - 1);
    }
  }

  lemma {:induction false} NumberedFrom(es: seq<Entry>, cmdsn: uint32, p: nat)
    requires Numbered(es, cmdsn) && p <= |es|
    ensures Numbered(es[p..], cmdsn)
  {
    if p > 0 {
      NumberedFrom(es[1..], cmdsn, p - 1);
      assert es[1..][p - 1..] == es[p..];
    } else {
      assert es[0..] == es;
    }
  }

  // A DATA-OUT is queued behind its own command and all earlier ones, and ahead of all later ones.
  lemma DataOutFollowsItsCommand(es: seq<Entry>, cmdsn: uint32, x: Entry, k: nat)
    requires Numbered(es, cmdsn) && InWindow(es, cmdsn) && !IsImmediate(x) && Age(cmdsn, x.cmdsn) < H
    requires k < |es| && IsCommand(es[k])
    ensures k < Place(es, x) <==> Age(cmdsn, es[k].cmdsn) >= Age(cmdsn, x.cmdsn)
  {
    var p := Place(es, x);
    PlaceIsFirst(es, x);
    if k < p {
      CompareByAge(cmdsn, x.cmdsn, es[k].cmdsn);
    } else {
      CompareByAge(cmdsn, x.cmdsn, es[p].cmdsn);
      NumberedFrom(es, cmdsn, p);
      FirstIsOldest(es[p..], cmdsn, k - p);
    }
  }

  // ----- culling keeps the numbering

  lemma {:induction false} CullCounts(es: seq<Entry>, why: Reason, gap: nat)
    ensures Commands(Cull(es, why, gap)) + Dropped(es, why) == Commands(es)
    ensures NoImmediate(es) ==> NoImmediate(Cull(es, why, gap))
  {
    if es != [] {
      var g := if Drops(why, es[0]) then gap + Weight(es[0]) else gap;
      CullCounts(es[1..], why, g);
      if !Drops(why, es[0]) {
        var rest := Cull(es[1..], why, gap);
        assert Cull(es, why, gap)[1..] == rest;
        assert Cull(es, why, gap)[0] == Shift(es[0], gap);
      }
    }
  }

  lemma HeadShifts(e: Entry, n: nat, cmdsn: uint32, gap: nat, later: nat)
    requires HeadNumbered(e, n, cmdsn) && later <= n
    ensures HeadNumbered(Shift(e, gap), n - later, Wrap(cmdsn - gap - later))
    ensures Age(Wrap(cmdsn - gap - later), Shift(e, gap).cmdsn) <= Age(cmdsn, e.cmdsn)
  {
    AgeShifts(cmdsn, e.cmdsn, 0 - gap - later, 0 - gap);
  }

  // Closing the gaps: with gap commands already dropped before es, the shifted survivors are numbered again
  // with respect to the counter lowered by all dropped commands.
  lemma {:induction false} CullKeepsNumbering(es: seq<Entry>, cmdsn: uint32, why: Reason, gap: nat, next: uint32)
    requires Numbered(es, cmdsn) && next == Wrap(cmdsn - gap - Dropped(es, why))
    ensures Numbered(Cull(es, why, gap), next)
    ensures InWindow(es, cmdsn) ==> InWindow(Cull(es, why, gap), next)
  {
    if es != [] {
      var t := es[1..];
      assert InWindow(es, cmdsn) ==> InWindow(t, cmdsn);
      if Drops(why, es[0]) {
        CullKeepsNumbering(t, cmdsn, why, gap + Weight(es[0]), next);
      } else {
        CullKeepsNumbering(t, cmdsn, why, gap, next);
        CullCounts(es, why, gap);
        CullCounts(t, why, gap);
        var r := Cull(es, why, gap);
        assert r[1..] == Cull(t, why, gap) && r[0] == Shift(es[0], gap);
        HeadShifts(es[0], Commands(es), cmdsn, gap, Dropped(es, why));
      }
    }
  }

  // ----- cancelling a single queued task: iscsi_scsi_cancel_task

  ghost predicate Gapless(ns: seq<uint32>, cmdsn: uint32) {
    forall i :: 0 <= i < |ns| ==> ns[i] == Wrap(cmdsn - |ns| + i)
  }

  lemma {:induction false} NumbersOfConcat(a: seq<Entry>, b: seq<Entry>)
    ensures CommandNumbers(a + b) == CommandNumbers(a) + CommandNumbers(b)
  {
    if a == [] {
      assert a + b == b;
    } else {
      assert (a + b)[1..] == a[1..] + b;
      NumbersOfConcat(a[1..], b);
    }
  }

  lemma NumbersAround(es: seq<Entry>, j: nat)
    requires j < |es| && IsCommand(es[j])
    ensures var a, b := CommandNumbers(es[..j]), CommandNumbers(es[j + 1..]);
            CommandNumbers(es) == a + [es[j].cmdsn] + b && CommandNumbers(es[..j] + es[j + 1..]) == a + b
  {
    assert es == es[..j] + es[j..] && es[j..][1..] == es[j + 1..];
    NumbersOfConcat(es[..j], es[j..]);
    NumbersOfConcat(es[..j], es[j + 1..]);
    Regroup(CommandNumbers(es[..j]), [es[j].cmdsn], CommandNumbers(es[j + 1..]));
  }

  // A number taken out of a gapless row leaves it gapless, with the counter stepped back, only at the end.
  lemma GapUnlessLast(all: seq<uint32>, a: seq<uint32>, x: uint32, b: seq<uint32>, cmdsn: uint32)
    requires all == a + [x] + b && Gapless(all, cmdsn)
    ensures Gapless(a + b, Wrap(cmdsn - 1)) <==> b == []
  {
    if b == [] {
      assert a + b == a;
      forall i | 0 <= i < |a| ensures a[i] == Wrap(Wrap(cmdsn - 1) - |a| + i) {
        assert all[i] == a[i];
        WrapOfWrap(cmdsn - 1, i - |a|);
      }
    } else {
      assert all[|all| - 1] == b[|b| - 1] == (a + b)[|a + b| - 1];
      WrapOfWrap(cmdsn - 1, -1);
      WrapDiffers(cmdsn);
    }
  }

  // The command at j leaves the queue and gives its number back, but nothing behind it is renumbered. The numbering
  // stays gapless exactly if no command stood behind it.
  lemma CancelTaskLeavesGap(es: seq<Entry>, cmdsn: uint32, j: nat)
    requires Numbered(es, cmdsn) && j < |es| && IsCommand(es[j])
    ensures Gapless(CommandNumbers(es[..j] + es[j + 1..]), Wrap(cmdsn - 1)) <==> Commands(es[j + 1..]) == 0
  {
    var all := CommandNumbers(es);
    forall i | 0 <= i < |all| ensures all[i] == Wrap(cmdsn - |all| + i) {
      QueueIsGapless(es, cmdsn, i);
    }
    NumbersAround(es, j);
    GapUnlessLast(all, CommandNumbers(es[..j]), es[j].cmdsn, CommandNumbers(es[j + 1..]), cmdsn);
  }

  // Commands 5 and 6 are queued and the counter stands at 7. Cancelling the first leaves 6 with the counter at 6, so
  // the next command gets the number 6 once more.
  lemma CancelTaskWitness()
    ensures var first, second := Entry(false, 0x01, 5, 0, None), Entry(false, 0x01, 6, 0, None);
            && Numbered([first, second], 7)
            && !Gapless(CommandNumbers([second]), 6)
            && CommandNumbers(Insert([second], second)) == [6, 6]
  {
    var first, second := Entry(false, 0x01, 5, 0, None), Entry(false, 0x01, 6, 0, None);
    assert [first, second][1..] == [second] && [second][1..] == [];
    assert Numbered([], 7) && Numbered([second], 7);
    var left := CommandNumbers([second]);
    assert left == [6] && left[0] != Wrap(6 - |left| + 0);
    assert Place([second], second) == 1 + Place([], second);
    assert Insert([second], second) == [second, second];
    assert [second, second][1..] == [second];
  }

  lemma WrapOfWrap(x: int, d: int)
    ensures Wrap(Wrap(x) + d) == Wrap(x + d)
  {
  }

  lemma WrapDiffers(x: uint32)
    ensures Wrap(x - 1) != Wrap(x - 2)
  {
  }
}
