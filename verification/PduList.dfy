// The singly linked PDU lists and the macros of include/slist.h. A list is a head pointer; the ghost sequence s
// given with it names the objects in order.
module PduList {
  import opened Common
  import opened Serial32
  import opened CmdSn

  // A SCSI task: whether it writes, how much it transfers, and the cursors of its data-in and data-out buffers.
  class Task {
    const isWrite: bool
    const expxferlen: uint32
    var inOffset: nat
    var inConsumed: nat
    var outOffset: nat
    var outConsumed: nat

    constructor (isWrite: bool, expxferlen: uint32)
      ensures this.isWrite == isWrite && this.expxferlen == expxferlen
    {
      this.isWrite, this.expxferlen := isWrite, expxferlen;
      inOffset, inConsumed, outOffset, outConsumed := 0, 0, 0, 0;
    }
  }

  class Pdu {
    const itt: uint32
    const dropOnReconnect: bool
    const hasCallback: bool
    const lun: int
    const task: Task?
    var next: Pdu?
    var immediate: bool
    var opcode: int
    var cmdsn: uint32
    var timeout: int
    var taskLun: Option<int>
    var deleteWhenSent: bool

    constructor (immediate: bool, opcode: int, taskLun: Option<int>, deleteWhenSent: bool, itt: uint32,
                 dropOnReconnect: bool, hasCallback: bool, lun: int, task: Task?)
      ensures View() == Entry(immediate, opcode, 0, 0, taskLun) && this.deleteWhenSent == deleteWhenSent
      ensures this.itt == itt && this.dropOnReconnect == dropOnReconnect && this.hasCallback == hasCallback
      ensures this.lun == lun && this.task == task
    {
      next, timeout, cmdsn := null, 0, 0;
      this.immediate, this.opcode, this.taskLun, this.deleteWhenSent := immediate, opcode, taskLun, deleteWhenSent;
      this.itt, this.dropOnReconnect, this.hasCallback := itt, dropOnReconnect, hasCallback;
      this.lun, this.task := lun, task;
    }

    function View(): Entry
      reads this
    {
      Entry(immediate, opcode, cmdsn, timeout, taskLun)
    }
  }

  // The PDUs of a list have the values es.
  ghost predicate Shows(s: seq<Pdu>, es: seq<Entry>)
    reads s
  {
    |s| == |es| && forall i {:trigger ShowsAt(s, es, i)} :: 0 <= i < |s| ==> ShowsAt(s, es, i)
  }

  ghost predicate ShowsAt(s: seq<Pdu>, es: seq<Entry>, i: int)
    requires 0 <= i < |s| == |es|
    reads s
  {
    s[i].View() == es[i]
  }

  ghost predicate IsList(head: Pdu?, s: seq<Pdu>)
    reads s
  {
    && (head == null <==> s == [])
    && (s != [] ==> head == s[0])
    && (forall i {:trigger LinkAt(s, i)} :: 0 <= i < |s| ==> LinkAt(s, i))
    && Distinct(s)
  }

  ghost predicate LinkAt(s: seq<Pdu>, i: int)
    requires 0 <= i < |s|
    reads s
  {
    s[i].next == if i + 1 < |s| then s[i + 1] else null
  }

  ghost predicate Distinct(s: seq<Pdu>) {
    forall i, j {:trigger Apart(s, i, j)} :: 0 <= i < j < |s| ==> Apart(s, i, j)
  }

  ghost predicate Apart(s: seq<Pdu>, i: int, j: int)
    requires 0 <= i < j < |s|
  {
    s[i] != s[j]
  }

  lemma OnlyAt(s: seq<Pdu>, i: nat)
    requires Distinct(s) && i < |s|
    ensures forall j :: 0 <= j < |s| && j != i ==> s[j] != s[i]
  {
    forall j | 0 <= j < |s| && j != i ensures s[j] != s[i] {
      assert if i < j then Apart(s, i, j) else Apart(s, j, i);
    }
  }

  lemma DistinctInsert(s: seq<Pdu>, i: nat, x: Pdu)
    requires Distinct(s) && i <= |s| && x !in s
    ensures Distinct(s[..i] + [x] + s[i..])
  {
    var t := s[..i] + [x] + s[i..];
    forall a, b | 0 <= a < b < |t| ensures Apart(t, a, b) {
      var a', b' := if a < i then a else a - 1, if b < i then b else b - 1;
      assert a != i && b != i ==> Apart(s, a', b');
    }
  }

  lemma DistinctCut(s: seq<Pdu>, i: nat)
    requires Distinct(s) && i < |s|
    ensures Distinct(s[..i] + s[i + 1..])
  {
    var t := s[..i] + s[i + 1..];
    forall a, b | 0 <= a < b < |t| ensures Apart(t, a, b) {
      assert Apart(s, if a < i then a else a + 1, if b < i then b else b + 1);
    }
  }

  // A list without one object; the list itself when the object is not in it.
  function Without(s: seq<Pdu>, x: Pdu): seq<Pdu> {
    if s == [] then [] else if s[0] == x then s[1..] else [s[0]] + Without(s[1..], x)
  }

  lemma {:induction false} WithoutAt(s: seq<Pdu>, x: Pdu, k: nat)
    requires k < |s| && s[k] == x && forall i :: 0 <= i < k ==> s[i] != x
    ensures Without(s, x) == s[..k] + s[k + 1..]
  {
    if k > 0 {
      WithoutAt(s[1..], x, k - 1);
      assert s[1..][..k - 1] == s[1..k] && s[1..][k..] == s[k + 1..];
    }
  }

  lemma {:induction false} WithoutAbsent(s: seq<Pdu>, x: Pdu)
    requires x !in s
    ensures Without(s, x) == s
  {
    if s != [] {
      WithoutAbsent(s[1..], x);
    }
  }

  // ISCSI_LIST_ADD
  method Add(head: Pdu?, item: Pdu, ghost s: seq<Pdu>) returns (head': Pdu)
    requires IsList(head, s) && item !in s
    modifies item`next
    ensures IsList(head', [item] + s)
  {
    head' := Link(head, null, head, item, s, 0);
    assert s[..0] + [item] + s[0..] == [item] + s;
  }

  // Links item between last and cursor, which are neighbours in the list or its ends.
  method Link(head: Pdu?, last: Pdu?, cursor: Pdu?, item: Pdu, ghost s: seq<Pdu>, ghost i: nat) returns (head': Pdu)
    requires IsList(head, s) && item !in s && i <= |s|
    requires cursor == (if i < |s| then s[i] else null) && last == (if i > 0 then s[i - 1] else null)
    modifies (if last == null then {item} else {item, last as Pdu})`next
    ensures IsList(head', s[..i] + [item] + s[i..])
  {
    ghost var t := s[..i] + [item] + s[i..];
    DistinctInsert(s, i, item);
    if last != null {
      OnlyAt(s, i - 1);
      last.next := item;
      head' := head;
    } else {
      head' := item;
    }
    item.next := cursor;
    forall j | 0 <= j < |t| ensures LinkAt(t, j) {
      if j < i {
        assert old(LinkAt(s, j)) && s[j] != item;
      } else if j > i {
        assert old(LinkAt(s, j - 1)) && s[j - 1] != item;
      }
    }
  }

  // ISCSI_LIST_ADD_END
  method AddEnd(head: Pdu?, item: Pdu, ghost s: seq<Pdu>) returns (head': Pdu)
    requires IsList(head, s) && item !in s
    modifies s`next, item`next
    ensures IsList(head', s + [item])
  {
    assert s[..|s|] + [item] + s[|s|..] == s + [item];
    if head == null {
      head' := Add(head, item, s);
      assert [item] + s == s + [item];
    } else {
      var cursor: Pdu := head;
      ghost var i := 0;
      assert LinkAt(s, 0);
      while cursor.next != null
        invariant 0 <= i < |s| && cursor == s[i] && LinkAt(s, i)
        decreases |s| - i
      {
        cursor := cursor.next;
        i := i + 1;
      }
      head' := Link(head, cursor, null, item, s, |s|);
    }
  }

  // Takes the object at i + 1 out of the chain.
  method Unlink(cursor: Pdu, ghost head: Pdu?, ghost s: seq<Pdu>, ghost i: nat)
    requires IsList(head, s) && i + 1 < |s| && cursor == s[i]
    modifies cursor`next
    ensures IsList(head, s[..i + 1] + s[i + 2..])
  {
    assert LinkAt(s, i) && LinkAt(s, i + 1);
    DistinctCut(s, i + 1);
    OnlyAt(s, i);
    cursor.next := cursor.next.next;
    ghost var t := s[..i + 1] + s[i + 2..];
    forall j | 0 <= j < |t| ensures LinkAt(t, j) {
      assert old(LinkAt(s, if j <= i then j else j + 1));
    }
  }

  lemma TailIsList(head: Pdu?, s: seq<Pdu>)
    requires IsList(head, s) && s != []
    ensures IsList(s[0].next, s[1..])
  {
    DistinctCut(s, 0);
    assert s[..0] + s[1..] == s[1..];
    assert LinkAt(s, 0);
    forall j | 0 <= j < |s| - 1 ensures LinkAt(s[1..], j) {
      assert LinkAt(s, j + 1);
    }
  }

  // ISCSI_LIST_REMOVE: the list must hold something, since the macro looks at the first object.
  method Remove(head: Pdu?, item: Pdu, ghost s: seq<Pdu>) returns (head': Pdu?)
    requires IsList(head, s) && s != []
    modifies s`next
    ensures IsList(head', Without(s, item))
    ensures item.next == old(item.next)
  {
    assert LinkAt(s, 0);
    if head == item {
      head' := item.next;
      WithoutAt(s, item, 0);
      TailIsList(head, s);
    } else {
      var cursor: Pdu := head;
      ghost var i := 0;
      while cursor.next != null && cursor.next != item
        invariant 0 <= i < |s| && cursor == s[i] && LinkAt(s, i)
        invariant forall j :: 0 <= j <= i ==> s[j] != item
        decreases |s| - i
      {
        cursor := cursor.next;
        i := i + 1;
      }
      if cursor.next != null {
        WithoutAt(s, item, i + 1);
        Unlink(cursor, head, s, i);
      } else {
        WithoutAbsent(s, item);
      }
      head' := head;
    }
  }
}
