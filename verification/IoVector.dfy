// The scatter/gather cursor of lib/socket.c: iscsi_iovector_readv_writev.
//
// A task's data lives in a list of user buffers. The cursor moves a byte range of the transfer between the socket and
// those buffers. It remembers how many leading entries the transfer has passed and edits the first and last entry of
// the call around the system call.
module IoVector {
  import opened Common
  import opened Octets
  import opened Crc32c
  import opened CrcDigest

  // struct scsi_iovec: `len` bytes at address `base`.
  datatype Iovec = Iovec(base: nat, len: nat)

  // ----- the flat buffer that the entries stand for

  function Span(e: Iovec): (s: seq<nat>)
    ensures |s| == e.len
  {
    seq(e.len, i requires 0 <= i < e.len => e.base + i)
  }

  // The address of every byte of the transfer, in order.
  function Addresses(v: seq<Iovec>): seq<nat> {
    if v == [] then [] else Span(v[0]) + Addresses(v[1..])
  }

  function Total(v: seq<Iovec>): (n: nat)
    ensures n == |Addresses(v)|
  {
    if v == [] then 0 else v[0].len + Total(v[1..])
  }

  predicate FitsIn(e: Iovec, size: nat) {
    e.base + e.len <= size
  }

  predicate AllFit(v: seq<Iovec>, size: nat) {
    forall i :: 0 <= i < |v| ==> FitsIn(v[i], size)
  }

  predicate Inside(a: seq<nat>, size: nat) {
    forall i :: 0 <= i < |a| ==> a[i] < size
  }

  function Load(mem: seq<byte>, a: seq<nat>): (s: seq<byte>)
    requires Inside(a, |mem|)
    ensures |s| == |a|
  {
    seq(|a|, i requires 0 <= i < |a| => mem[a[i]])
  }

  // The bytes `b` stored one after the other at the addresses `a`.
  function Store(mem: seq<byte>, a: seq<nat>, b: seq<byte>): (mem': seq<byte>)
    requires Inside(a, |mem|) && |a| == |b|
    ensures |mem'| == |mem|
    decreases |a|
  {
    if |a| == 0 then mem
    else Store(mem, a[..|a| - 1], b[..|b| - 1])[a[|a| - 1] := b[|b| - 1]]
  }

  lemma {:induction false} AddressesSplit(v: seq<Iovec>, c: nat)
    requires c <= |v|
    ensures Addresses(v) == Addresses(v[..c]) + Addresses(v[c..])
    ensures Total(v) == Total(v[..c]) + Total(v[c..])
  {
    if c == 0 {
      assert v[..0] == [] && v[0..] == v;
    } else {
      AddressesSplit(v[1..], c - 1);
      assert v[..c][1..] == v[1..][..c - 1] && v[1..][c - 1..] == v[c..];
    }
  }

  lemma AddressesOfOne(e: Iovec)
    ensures Addresses([e]) == Span(e) && Total([e]) == e.len
  {
    assert [e][1..] == [];
  }

  // How many bytes the entries from `i` up to `j` hold.
  function Between(v: seq<Iovec>, i: nat, j: nat): nat
    requires i <= j <= |v|
  {
    Total(v[i..j])
  }

  lemma BetweenNone(v: seq<Iovec>, i: nat)
    requires i <= |v|
    ensures Between(v, i, i) == 0
  {
    assert v[i..i] == [];
  }

  lemma BetweenJoins(v: seq<Iovec>, i: nat, j: nat, k: nat)
    requires i <= j <= k <= |v|
    ensures Between(v, i, j) + Between(v, j, k) == Between(v, i, k)
  {
    var w := v[i..k];
    AddressesSplit(w, j - i);
    assert w[..j - i] == v[i..j] && w[j - i..] == v[j..k];
  }

  lemma BetweenGrows(v: seq<Iovec>, i: nat, j: nat)
    requires i <= j < |v|
    ensures Between(v, i, j + 1) == Between(v, i, j) + v[j].len
  {
    BetweenJoins(v, i, j, j + 1);
    assert v[j..j + 1] == [v[j]];
    AddressesOfOne(v[j]);
  }

  lemma BetweenAll(v: seq<Iovec>, i: nat)
    requires i <= |v|
    ensures Between(v, 0, i) + Between(v, i, |v|) == Total(v)
  {
    BetweenJoins(v, 0, i, |v|);
    assert v[0..|v|] == v;
  }

  lemma LastEntry(w: seq<Iovec>, m: nat)
    requires |w| == m + 1
    ensures Addresses(w) == Addresses(w[..m]) + Span(w[m])
  {
    AddressesSplit(w, m);
    assert w[m..] == [w[m]];
    AddressesOfOne(w[m]);
  }

  function Shortened(w: seq<Iovec>, n: nat): (x: seq<Iovec>)
    requires |w| > 0
    ensures |x| == |w|
  {
    w[|w| - 1 := Iovec(w[|w| - 1].base, n)]
  }

  function Advanced(x: seq<Iovec>, p: nat): (y: seq<Iovec>)
    requires |x| > 0 && p <= x[0].len
    ensures |y| == |x|
  {
    x[0 := Iovec(x[0].base + p, x[0].len - p)]
  }

  // A shorter last entry drops bytes at the end of the flat buffer.
  lemma ShortenLast(w: seq<Iovec>, m: nat, n: nat)
    requires |w| == m + 1 && n <= w[m].len
    ensures Total(w[..m]) + n <= Total(w) && Addresses(Shortened(w, n)) == Addresses(w)[..Total(w[..m]) + n]
  {
    var x := Shortened(w, n);
    LastEntry(w, m);
    LastEntry(x, m);
    assert x[..m] == w[..m];
    ShorterSum(Addresses(w[..m]), Span(w[m]), Span(x[m]));
  }

  lemma ShorterSum(a: seq<nat>, b: seq<nat>, b': seq<nat>)
    requires b' <= b
    ensures a + b' == (a + b)[..|a| + |b'|]
  {
  }

  lemma FirstEntry(x: seq<Iovec>, r: seq<Iovec>)
    requires |x| > 0 && r == x[1..]
    ensures Addresses(x) == Span(x[0]) + Addresses(r)
  {
  }

  lemma SpanDrop(e: Iovec, p: nat)
    requires p <= e.len
    ensures Span(Iovec(e.base + p, e.len - p)) == Span(e)[p..]
  {
  }

  lemma AdvancedRest(x: seq<Iovec>, p: nat)
    requires |x| > 0 && p <= x[0].len
    ensures Advanced(x, p)[1..] == x[1..] && Advanced(x, p)[0] == Iovec(x[0].base + p, x[0].len - p)
  {
  }

  // A later start of the first entry drops bytes at the beginning.
  lemma AdvanceFirst(x: seq<Iovec>, p: nat)
    requires |x| > 0 && p <= x[0].len
    ensures p <= Total(x) && Addresses(Advanced(x, p)) == Addresses(x)[p..]
  {
    var e, r := x[0], x[1..];
    AdvancedRest(x, p);
    FirstEntry(x, r);
    FirstEntry(Advanced(x, p), r);
    SpanDrop(e, p);
    DropSum(Addresses(x), Span(e), Addresses(r), p);
  }

  lemma DropSum(all: seq<nat>, a: seq<nat>, b: seq<nat>, p: nat)
    requires all == a + b && p <= |a|
    ensures p <= |all| && a[p..] + b == all[p..]
  {
  }

  // The entries as they are during the system call.
  function Edited(w: seq<Iovec>, p: nat, n: nat): (y: seq<Iovec>)
    requires Editable(w, 0, |w|, p, n)
    ensures |y| == |w|
  {
    Advanced(Shortened(w, n), p)
  }

  predicate Editable(v: seq<Iovec>, c: nat, m: nat, p: nat, n: nat) {
    0 < m && c + m <= |v| && n <= v[c + m - 1].len && p <= v[c].len && (m == 1 ==> p <= n)
  }

  // Entry `i` of the whole array during the system call.
  function EditedEntry(v: seq<Iovec>, c: nat, m: nat, p: nat, n: nat, i: nat): Iovec
    requires Editable(v, c, m, p, n) && i < |v|
  {
    var len := if i == c + m - 1 then n else v[i].len;
    if i == c then Iovec(v[i].base + p, len - p) else Iovec(v[i].base, len)
  }

  // They stand for exactly the requested range of the flat buffer, also when first and last are the same entry.
  lemma EditedCovers(v: seq<Iovec>, c: nat, m: nat, p: nat, n: nat, lo: nat, k: nat)
    requires Editable(v, c, m, p, n)
    requires lo == Between(v, 0, c) && k == Between(v, c, c + m - 1) + n
    ensures p <= k && lo + k <= Total(v)
    ensures Addresses(Edited(v[c..c + m], p, n)) == Addresses(v)[lo + p..lo + k]
  {
    var w := v[c..c + m];
    EditedKeeps(w, p, n, k) by {
      assert w[..m - 1] == v[c..c + m - 1];
    }
    AddressesSplit(v, c) by {
      assert v[0..c] == v[..c];
    }
    AddressesSplit(v[c..], m);
    assert v[c..][..m] == w && v[0..c] == v[..c];
    RangeOfRange(Addresses(v), Addresses(v[c..]), Addresses(w), lo, p, k);
  }

  lemma EditedKeeps(w: seq<Iovec>, p: nat, n: nat, k: nat)
    requires Editable(w, 0, |w|, p, n) && k == Total(w[..|w| - 1]) + n
    ensures p <= k <= Total(w) && Addresses(Edited(w, p, n)) == Addresses(w)[p..k]
  {
    var x := Shortened(w, n);
    ShortenLast(w, |w| - 1, n);
    ShortenedFirst(w, n);
    AdvanceFirst(x, p);
    TakeThenDrop(Addresses(w), Addresses(x), Addresses(Advanced(x, p)), p, k);
  }

  lemma ShortenedFirst(w: seq<Iovec>, n: nat)
    requires |w| > 0
    ensures Shortened(w, n)[0].len == if |w| == 1 then n else w[0].len
  {
  }

  lemma TakeThenDrop(a: seq<nat>, b: seq<nat>, c: seq<nat>, p: nat, k: nat)
    requires p <= k <= |a| && b == a[..k] && c == b[p..]
    ensures c == a[p..k]
  {
  }

  lemma RangeOfRange(all: seq<nat>, rest: seq<nat>, part: seq<nat>, lo: nat, p: nat, k: nat)
    requires lo <= |all| && all[lo..] == rest && part <= rest && p <= k <= |part|
    ensures all[lo + p..lo + k] == part[p..k]
  {
    assert all[lo..][p..k] == all[lo + p..lo + k];
    assert part == rest[..|part|];
    assert rest[..|part|][p..k] == rest[p..k];
  }

  lemma EditedFits(w: seq<Iovec>, p: nat, n: nat, size: nat)
    requires Editable(w, 0, |w|, p, n) && AllFit(w, size)
    ensures AllFit(Edited(w, p, n), size)
  {
    forall i | 0 <= i < |w| ensures FitsIn(Edited(w, p, n)[i], size) {
      assert FitsIn(w[i], size);
    }
  }

  lemma PartFits(v: seq<Iovec>, c: nat, m: nat, p: nat, n: nat, size: nat)
    requires Editable(v, c, m, p, n) && AllFit(v, size)
    ensures AllFit(Edited(v[c..c + m], p, n), size)
  {
    var w := v[c..c + m];
    forall i | 0 <= i < |w| ensures FitsIn(w[i], size) {
      assert FitsIn(v[c + i], size);
    }
    EditedFits(w, p, n, size);
  }

  lemma {:induction false} AddressesInside(v: seq<Iovec>, size: nat)
    requires AllFit(v, size)
    ensures Inside(Addresses(v), size)
  {
    if v != [] {
      assert FitsIn(v[0], size);
      forall i | 0 <= i < |v[1..]| ensures FitsIn(v[1..][i], size) {
        assert FitsIn(v[i + 1], size);
      }
      AddressesInside(v[1..], size);
    }
  }

  // ----- storing and loading

  predicate NoRepeats(a: seq<nat>) {
    forall i, j {:trigger Differ(a, i, j)} :: 0 <= i < j < |a| ==> Differ(a, i, j)
  }

  predicate Differ(a: seq<nat>, i: int, j: int)
    requires 0 <= i < j < |a|
  {
    a[i] != a[j]
  }

  lemma PartRepeatsNothing(a: seq<nat>, i: nat, k: nat)
    requires i <= k <= |a| && NoRepeats(a)
    ensures NoRepeats(a[i..k])
  {
    forall p, q | 0 <= p < q < k - i ensures Differ(a[i..k], p, q) {
      assert Differ(a, i + p, i + q);
    }
  }

  lemma {:induction false} StoreFrame(mem: seq<byte>, a: seq<nat>, b: seq<byte>, x: nat)
    requires Inside(a, |mem|) && |a| == |b| && x < |mem| && x !in a
    ensures Store(mem, a, b)[x] == mem[x]
    decreases |a|
  {
    if |a| > 0 {
      assert a[|a| - 1] in a;
      StoreFrame(mem, a[..|a| - 1], b[..|b| - 1], x);
    }
  }

  // Buffers that do not overlap hold what was stored.
  lemma {:induction false} StoreThenLoad(mem: seq<byte>, a: seq<nat>, b: seq<byte>)
    requires Inside(a, |mem|) && |a| == |b| && NoRepeats(a)
    ensures Load(Store(mem, a, b), a) == b
    decreases |a|
  {
    if |a| > 0 {
      var k := |a| - 1;
      PartRepeatsNothing(a, 0, k);
      StoreThenLoad(mem, a[..k], b[..k]);
      var before := Store(mem, a[..k], b[..k]);
      forall i | 0 <= i < k ensures Store(mem, a, b)[a[i]] == b[i] {
        assert Load(before, a[..k])[i] == b[..k][i];
        assert Differ(a, i, k);
      }
      forall i | 0 <= i <= k ensures Load(Store(mem, a, b), a)[i] == b[i] {
      }
    }
  }

  // Storing two pieces one after the other is storing them together.
  lemma {:induction false} StoreSplit(mem: seq<byte>, a: seq<nat>, b: seq<byte>, c: seq<nat>, d: seq<byte>)
    requires Inside(a, |mem|) && |a| == |b| && Inside(c, |mem|) && |c| == |d|
    ensures Store(Store(mem, a, b), c, d) == Store(mem, a + c, b + d)
    decreases |c|
  {
    if |c| == 0 {
      assert a + c == a && b + d == b;
    } else {
      var k := |c| - 1;
      StoreSplit(mem, a, b, c[..k], d[..k]);
      assert (a + c)[..|a + c| - 1] == a + c[..k] && (b + d)[..|b + d| - 1] == b + d[..k];
    }
  }

  lemma LoadSplit(mem: seq<byte>, a: seq<nat>, k: nat)
    requires Inside(a, |mem|) && k <= |a|
    ensures Load(mem, a) == Load(mem, a[..k]) + Load(mem, a[k..])
  {
  }

  // ----- what a transfer does

  // Everything a transfer touches: the user memory, the two directions of the connection, the running digest.
  datatype Picture = Picture(mem: seq<byte>, sent: seq<byte>, arriving: seq<byte>, digest: Option<word>)

  // The bytes at the addresses `a`, in order, go out to the socket, or the next arriving bytes go in there; the digest
  // takes exactly these bytes.
  function Transfer(t: seq<word>, s: Picture, doWrite: bool, a: seq<nat>): Picture
    requires |t| == 256 && Inside(a, |s.mem|) && (!doWrite ==> |a| <= |s.arriving|)
  {
    var mem := if doWrite then s.mem else Store(s.mem, a, s.arriving[..|a|]);
    Picture(
      mem,
      if doWrite then s.sent + Load(s.mem, a) else s.sent,
      if doWrite || |a| == 0 then s.arriving else s.arriving[|a|..],
      if s.digest == None then None else Some(Chain(t, s.digest.value, Load(mem, a)))
    )
  }

  predicate Transferred(t: seq<word>, s: Picture, s': Picture, doWrite: bool, a: seq<nat>) {
    && |t| == 256 && Inside(a, |s.mem|) && (!doWrite ==> |a| <= |s.arriving|)
    && s' == Transfer(t, s, doWrite, a)
  }

  ghost function Now(sock: Socket, mem: array<byte>, digest: Option<word>): Picture
    reads sock, mem
  {
    Picture(mem[..], sock.sent, sock.arriving, digest)
  }

  // ----- the system calls: a transfer takes any number of bytes up to what it is given, or would block

  // size_t has 64 bits.
  const SIZE := 0x1_0000_0000_0000_0000
  const SSIZE_MAX := 0x7fff_ffff_ffff_ffff

  class Socket {
    var sent: seq<byte>
    var arriving: seq<byte>

    constructor () {
      sent, arriving := [], [];
    }

    // `limit` is what the kernel is ready to take now; negative stands for EAGAIN.
    // POSIX: EINVAL for entries with more bytes in all than fit ssize_t.
    method Refuse(vec: seq<Iovec>) returns (n: int)
      requires Total(vec) > SSIZE_MAX
      ensures n == -1
    {
      return -1;
    }

    method Writev(mem: array<byte>, vec: seq<Iovec>, limit: int) returns (n: int)
      requires AllFit(vec, mem.Length)
      modifies this`sent
      ensures Inside(Addresses(vec), mem.Length)
      ensures n == Amount(limit, Total(vec), true, |old(arriving)|)
      ensures sent == if n < 0 then old(sent) else old(sent) + Load(mem[..], Addresses(vec)[..n])
    {
      AddressesInside(vec, mem.Length);
      if limit < 0 {
        return -1;
      }
      n := Min(limit, Total(vec));
      sent := sent + Load(mem[..], Addresses(vec)[..n]);
    }

    // send() of plain bytes.
    method Send(bytes: seq<byte>, limit: int) returns (n: int)
      modifies this`sent
      ensures n == Amount(limit, |bytes|, true, 0)
      ensures sent == if n < 0 then old(sent) else old(sent) + bytes[..n]
    {
      if limit < 0 {
        return -1;
      }
      n := Min(limit, |bytes|);
      sent := sent + bytes[..n];
    }

    // recv() of bytes that are not kept; -1 and what is not there yet count as none.
    method Recv(count: nat, limit: int) returns (n: nat)
      modifies this`arriving
      ensures n <= count && n <= |old(arriving)| && arriving == old(arriving)[n..]
      ensures count > 0 && limit > 0 && old(arriving) != [] ==> n > 0
    {
      n := if limit < 0 then 0 else Min(Min(limit, |arriving|), count);
      arriving := arriving[n..];
    }

    method Readv(mem: array<byte>, vec: seq<Iovec>, limit: int) returns (n: int)
      requires AllFit(vec, mem.Length)
      modifies this`arriving, mem
      ensures Inside(Addresses(vec), mem.Length)
      ensures n == Amount(limit, Total(vec), false, |old(arriving)|)
      ensures n < 0 ==> arriving == old(arriving) && mem[..] == old(mem[..])
      ensures n >= 0 ==> mem[..] == Store(old(mem[..]), Addresses(vec)[..n], old(arriving)[..n])
      ensures n >= 0 ==> arriving == old(arriving)[n..]
    {
      AddressesInside(vec, mem.Length);
      if limit < 0 {
        return -1;
      }
      n := Min(Min(limit, |arriving|), Total(vec));
      var a := Addresses(vec);
      var i := 0;
      while i < n
        invariant 0 <= i <= n
        invariant mem[..] == Store(old(mem[..]), a[..i], arriving[..i])
        modifies mem
      {
        assert a[..i + 1][..i] == a[..i] && arriving[..i + 1][..i] == arriving[..i];
        mem[a[i]] := arriving[i];
        i := i + 1;
      }
      arriving := arriving[n..];
    }
  }

  // ----- the cursor

  // How much a call moves: -1 would block.
  function Amount(limit: int, count: nat, doWrite: bool, arrived: nat): int {
    if limit < 0 then -1 else if doWrite then Min(limit, count) else Min(Min(limit, arrived), count)
  }

  // A call that asks for the `count` bytes from `lo` on moves the first `n` of them; -1 stands for EAGAIN.
  ghost predicate Moves(t: seq<word>, v: seq<Iovec>, lo: nat, count: nat, doWrite: bool, limit: int, s: Picture,
                        s': Picture, n: int)
  {
    && n == Amount(limit, count, doWrite, |s.arriving|)
    && (n < 0 ==> s' == s)
    && (n >= 0 ==> lo + count <= Total(v) && MovedSoFar(t, v, lo, n, doWrite, s, s'))
  }

  // The first `done` bytes of the range from `pos` on have been moved.
  ghost predicate MovedSoFar(t: seq<word>, v: seq<Iovec>, pos: nat, done: nat, doWrite: bool, s0: Picture, s: Picture) {
    && pos + done <= Total(v)
    && forall a {:trigger IsPart(a, v, pos, done)} :: IsPart(a, v, pos, done) ==> Transferred(t, s0, s, doWrite, a)
  }

  // `a` are the `n` addresses from position `lo` on.
  predicate IsPart(a: seq<nat>, v: seq<Iovec>, lo: nat, n: nat) {
    lo + n <= Total(v) && a == Addresses(v)[lo..lo + n]
  }

  lemma MovesRange(t: seq<word>, v: seq<Iovec>, lo: nat, count: nat, doWrite: bool, limit: int, s: Picture, s': Picture,
                   n: int, a: seq<nat>)
    requires n == Amount(limit, count, doWrite, |s.arriving|) && lo + count <= Total(v)
    requires if n < 0 then s' == s else a == Addresses(v)[lo..lo + n] && Transferred(t, s, s', doWrite, a)
    ensures Moves(t, v, lo, count, doWrite, limit, s, s', n)
  {
    if n >= 0 {
      forall b | IsPart(b, v, lo, n) ensures Transferred(t, s, s', doWrite, b) {
        assert b == a;
      }
    }
  }

  lemma WritingKeepsMemory(t: seq<word>, v: seq<Iovec>, lo: nat, count: nat, limit: int, s: Picture, s': Picture,
                           n: int)
    requires Moves(t, v, lo, count, true, limit, s, s', n)
    ensures s'.mem == s.mem
  {
    assert n >= 0 ==> IsPart(Addresses(v)[lo..lo + n], v, lo, n);
  }

  datatype Outcome = Invalid | WouldBlock | Moved(n: nat) {
    function Result(): int {
      if Moved? then n else -1
    }
  }

  // How far into its entry position `pos` lies, and whether the end of a range from there on, counted from the
  // beginning of that entry, needs more than 32 bits.
  function RestIn(v: seq<Iovec>, pos: nat): (r: nat)
    ensures r <= pos
  {
    if v == [] || pos < v[0].len then pos else RestIn(v[1..], pos - v[0].len)
  }

  predicate Wraps(v: seq<Iovec>, pos: nat, count: nat) {
    RestIn(v, pos) + count >= 0x1_0000_0000
  }

  lemma {:induction false} RestIs(v: seq<Iovec>, c: nat, rest: nat)
    requires c < |v| && rest < v[c].len
    ensures RestIn(v, Between(v, 0, c) + rest) == rest
  {
    if c == 0 {
      BetweenNone(v, 0);
    } else {
      RestIs(v[1..], c - 1, rest);
      assert v[0..c][1..] == v[1..][0..c - 1];
    }
  }

  // A range that lies in the buffers, and one that the call accepts.
  predicate Holds(v: seq<Iovec>, pos: nat, count: nat) {
    pos < Total(v) && pos + count <= Total(v)
  }

  predicate Accepts(v: seq<Iovec>, pos: nat, count: nat) {
    Holds(v, pos, count) && !Wraps(v, pos, count)
  }

  lemma SmallRangeIsAccepted(v: seq<Iovec>, pos: nat, count: nat)
    requires pos + count < 0x1_0000_0000
    ensures Accepts(v, pos, count) <==> Holds(v, pos, count)
  {
  }

  // A range that lies in the buffer, but its end comes out before its start.
  lemma WrapWitness()
    ensures var v, pos, count := [Iovec(0, 0x1_0000_0001)], 1, 0xffff_ffff;
            Holds(v, pos, count) && !Accepts(v, pos, count) && (RestIn(v, pos) + count) % 0x1_0000_0000 < RestIn(v, pos)
  {
    AddressesOfOne(Iovec(0, 0x1_0000_0001));
  }

  // How many bytes there are from the first entry of two and more bytes on.
  function Long(v: seq<Iovec>): (n: nat)
    ensures n <= Total(v)
  {
    if v == [] then 0 else if v[0].len >= 2 then Total(v) else Long(v[1..])
  }

  lemma {:induction false} RestBehindLong(v: seq<Iovec>, pos: nat)
    requires pos < Total(v) && RestIn(v, pos) >= 1
    ensures pos - RestIn(v, pos) + Long(v) >= Total(v)
  {
    if pos >= v[0].len {
      RestBehindLong(v[1..], pos - v[0].len);
    }
  }

  lemma {:induction false} RestOfSecondByte(v: seq<Iovec>)
    requires Long(v) > 0
    ensures RestIn(v, Total(v) - Long(v) + 1) == 1
  {
    if v[0].len < 2 {
      RestOfSecondByte(v[1..]);
    }
  }

  // All ranges in the buffers are accepted, for 32-bit positions and counts, if and only if fewer than 2^32 bytes
  // follow the start of the first entry that can be entered in its middle (or no 32-bit position gets there).
  lemma AllRangesAccepted(v: seq<Iovec>)
    ensures (forall pos: nat, count: nat :: pos < 0x1_0000_0000 && count < 0x1_0000_0000 && Holds(v, pos, count)
                                            ==> Accepts(v, pos, count))
            <==> Long(v) < 0x1_0000_0000 || Total(v) - Long(v) + 1 >= 0x1_0000_0000
  {
    if Long(v) < 0x1_0000_0000 || Total(v) - Long(v) + 1 >= 0x1_0000_0000 {
      forall pos: nat, count: nat | pos < 0x1_0000_0000 && count < 0x1_0000_0000 && Holds(v, pos, count)
        ensures Accepts(v, pos, count)
      {
        if RestIn(v, pos) >= 1 {
          RestBehindLong(v, pos);
        }
      }
    } else {
      RestOfSecondByte(v);
      assert Holds(v, Total(v) - Long(v) + 1, 0xffff_ffff) && !Accepts(v, Total(v) - Long(v) + 1, 0xffff_ffff);
    }
  }

  // The range of `count` bytes that starts `rest` bytes into entry `c` ends `len2` bytes into entry `c + m - 1`.
  predicate InLast(v: seq<Iovec>, c: nat, rest: nat, count: nat, m: nat, len2: nat) {
    && 1 <= m && c + m <= |v| && len2 <= v[c + m - 1].len && (m == 1 ==> rest <= len2)
    && Between(v, c, c + m - 1) + len2 == rest + count
  }

  lemma InLastFits(v: seq<Iovec>, c: nat, rest: nat, count: nat, m: nat, len2: nat)
    requires InLast(v, c, rest, count, m, len2)
    ensures Between(v, 0, c) + rest + count <= Total(v)
  {
    BetweenGrows(v, c, c + m - 1);
    BetweenJoins(v, c, c + m, |v|);
    BetweenAll(v, c);
  }

  lemma WithinEnd(v: seq<Iovec>, c: nat, m: nat, len2: nat, end: nat)
    requires 1 <= m && c + m <= |v| && Between(v, c, c + m - 1) + len2 == end && len2 <= v[c + m - 1].len
    ensures InLast(v, c, 0, end, m, len2) && Between(v, 0, c) + end <= Total(v) && (m == 1 ==> len2 == end)
  {
    if m == 1 {
      BetweenNone(v, c);
    }
    InLastFits(v, c, 0, end, m, len2);
  }

  lemma BeyondEnd(v: seq<Iovec>, c: nat, last: nat, len2: nat, end: nat)
    requires c <= last && last + 1 == |v| && Between(v, c, last) + len2 == end && len2 > v[last].len
    ensures Between(v, 0, c) + end > Total(v)
  {
    BetweenAll(v, c);
    var total, before, front := Between(v, c, |v|), Between(v, 0, c), Between(v, c, last);
    assert total == front + v[last].len by {
      BetweenGrows(v, c, last);
    }
  }

  // What the entries of the call cover, seen from the flat buffer: `a` are the addresses of the first `k` bytes.
  lemma Covered(v: seq<Iovec>, c: nat, rest: nat, count: nat, m: nat, len2: nat, vec: seq<Iovec>, size: nat, lo: nat,
                k: nat)
    returns (a: seq<nat>)
    requires c < |v| && InLast(v, c, rest, count, m, len2) && rest <= v[c].len && AllFit(v, size) && k <= count
    requires |vec| == m && forall i :: 0 <= i < m ==> vec[i] == EditedEntry(v, c, m, rest, len2, c + i)
    requires lo == Between(v, 0, c) + rest
    ensures AllFit(vec, size) && Inside(Addresses(v), size) && Total(vec) == count && lo + count <= Total(v)
    ensures a == Addresses(vec)[..k] && a == Addresses(v)[lo..lo + k]
  {
    assert vec == Edited(v[c..c + m], rest, len2);
    EditedCovers(v, c, m, rest, len2, Between(v, 0, c), rest + count);
    PartFits(v, c, m, rest, len2, size);
    AddressesInside(v, size);
    SubRange(Addresses(v), lo, lo + count, k);
    a := Addresses(vec)[..k];
  }

  class Cursor {
    var iov: array?<Iovec>
    var niov: nat
    var offset: nat
    var consumed: nat

    ghost predicate Valid()
      reads this, iov
    {
      iov != null ==> niov <= iov.Length && consumed <= niov && offset == Between(iov[..niov], 0, consumed)
    }

    ghost function Entries(): (v: seq<Iovec>)
      reads this, iov
      requires Valid()
    {
      if iov == null then [] else iov[..niov]
    }

    // The head loop: pass every entry that ends at or before the position.
    method SkipPassed(pos: nat) returns (ok: bool, rest: nat)
      requires Valid() && iov != null && offset <= pos && consumed < niov
      modifies this`offset, this`consumed
      ensures Valid() && old(offset) <= offset <= pos
      ensures ok <==> pos < Total(iov[..niov])
      ensures ok ==> consumed < niov && rest == pos - offset < iov[consumed].len
    {
      rest := pos - offset;
      ghost var v := iov[..niov];
      while rest >= iov[consumed].len
        invariant old(offset) <= offset && consumed < niov && rest == pos - offset
        invariant offset == Between(v, 0, consumed)
        decreases niov - consumed
      {
        BetweenGrows(v, 0, consumed);
        offset := offset + iov[consumed].len;
        rest := rest - iov[consumed].len;
        consumed := consumed + 1;
        if niov <= consumed {
          BetweenAll(v, niov);
          return false, rest;
        }
      }
      BetweenAll(v, consumed + 1);
      BetweenGrows(v, 0, consumed);
      return true, rest;
    }

    // How many entries the range reaches into, and how far into the last of them. The end of the range is kept in 32
    // bits; when it wraps it comes out before the start.
    method FindLast(rest: nat, count: nat) returns (ok: bool, m: nat, len2: nat)
      requires Valid() && iov != null && consumed < niov && rest < iov[consumed].len
      requires rest < 0x1_0000_0000 && count < 0x1_0000_0000
      ensures rest + count < 0x1_0000_0000 ==> (ok <==> offset + rest + count <= Total(iov[..niov]))
      ensures rest + count < 0x1_0000_0000 && ok ==> InLast(iov[..niov], consumed, rest, count, m, len2)
      ensures rest + count >= 0x1_0000_0000 ==> ok && m == 1 && len2 == rest + count - 0x1_0000_0000 < rest
    {
      ok, m, len2 := FindEnd((rest + count) % 0x1_0000_0000);
    }

    // The tail loop.
    method FindEnd(end: nat) returns (ok: bool, m: nat, len2: nat)
      requires Valid() && iov != null && consumed < niov
      ensures ok <==> offset + end <= Total(iov[..niov])
      ensures ok ==> InLast(iov[..niov], consumed, 0, end, m, len2) && (m == 1 ==> len2 == end)
      ensures end <= iov[consumed].len ==> ok && m == 1
    {
      m, len2 := 1, end;
      ghost var v, c := iov[..niov], consumed;
      BetweenNone(v, c);
      while len2 > iov[consumed + m - 1].len
        invariant 1 <= m && c + m <= niov && Between(v, c, c + m - 1) + len2 == end
        invariant m > 1 ==> end > v[c].len
        decreases niov - m
      {
        m := m + 1;
        if niov < consumed + m {
          BeyondEnd(v, c, c + m - 2, len2, end);
          return false, m, len2;
        }
        BetweenGrows(v, c, c + m - 2);
        len2 := len2 - iov[consumed + m - 2].len;
      }
      WithinEnd(v, c, m, len2, end);
      return true, m, len2;
    }

    // The digest takes the moved bytes entry by entry.
    method UpdateDigest(digester: Digester, mem: array<byte>, vec: seq<Iovec>, n: nat, digest: word) returns (d: word)
      requires digester.crctable.Length == 256 && AllFit(vec, mem.Length) && n <= Total(vec)
      ensures d == DigestOf(digester.crctable[..], digest, mem[..], vec, n)
    {
      d := digest;
      ghost var t, s := digester.crctable[..], mem[..];
      var left, i := n, 0;
      assert After(vec, 0) == vec;
      while i < |vec| && left > 0
        invariant 0 <= i <= |vec| && 0 <= left <= Total(After(vec, i)) && AllFit(After(vec, i), |s|)
        invariant DigestOf(t, digest, s, vec, n) == DigestOf(t, d, s, After(vec, i), left)
      {
        d, left := DigestEntry(digester, mem, vec, i, left, d);
        i := i + 1;
      }
    }

    method DigestEntry(digester: Digester, mem: array<byte>, vec: seq<Iovec>, i: nat, left: nat, d: word)
      returns (d': word, left': nat)
      requires digester.crctable.Length == 256 && i < |vec| && AllFit(After(vec, i), mem.Length)
      requires left <= Total(After(vec, i))
      ensures left' <= Total(After(vec, i + 1)) && AllFit(After(vec, i + 1), mem.Length)
      ensures DigestOf(digester.crctable[..], d, mem[..], After(vec, i), left)
              == DigestOf(digester.crctable[..], d', mem[..], After(vec, i + 1), left')
    {
      assert FitsIn(After(vec, i)[0], mem.Length);
      var chunk := Min(left, vec[i].len);
      ChainChunk(digester.crctable[..], d, mem[..], After(vec, i), left);
      assert After(vec, i)[1..] == After(vec, i + 1);
      d' := digester.Crc32cChain(d, mem, vec[i].base, chunk);
      left' := left - chunk;
    }

    // The whole call. `digest` is the running data digest if there is one.
    // `t` and `v` are the digest table and the entries, named for the contract.
    method ReadvWritev(sock: Socket, mem: array<byte>, digester: Digester, ghost t: seq<word>, ghost v: seq<Iovec>,
                       pos: nat, count: nat, digest: Option<word>, doWrite: bool, limit: int)
      returns (out: Outcome, digest': Option<word>)
      requires Valid() && v == Entries() && AllFit(v, mem.Length) && pos < 0x1_0000_0000 && count < 0x1_0000_0000
      requires |t| == 256 && t == digester.crctable[..] && mem != digester.crctable as object
      requires iov != null ==> mem != iov as object
      requires iov != null ==> iov != digester.crctable as object
      modifies this`offset, this`consumed, iov, mem, sock
      ensures Valid() && Entries() == v
      ensures out == Invalid <==>
              iov == null || pos < old(offset) || !Accepts(v, pos, count)
      ensures iov != null && old(offset) <= pos ==> old(offset) <= offset <= pos
      ensures iov == null || pos < old(offset) ==> offset == old(offset) && consumed == old(consumed)
      ensures out != Invalid ==> Inside(Addresses(v), mem.Length) && (out == WouldBlock <==> limit < 0)
      ensures doWrite ==> mem[..] == old(mem[..])
      ensures out == Invalid ==> Now(sock, mem, digest') == old(Now(sock, mem, digest))
      ensures out != Invalid ==>
              Moves(t, v, pos, count, doWrite, limit, old(Now(sock, mem, digest)), Now(sock, mem, digest'),
                    out.Result())
    {
      var ok, rest, m, len2 := Locate(pos, count);
      if !ok {
        return Invalid, digest;
      }
      if m == 1 && len2 < rest {
        var failed := MoveWrapped(sock, v, rest, len2);
        return Invalid, digest;
      }
      ghost var s0 := Now(sock, mem, digest);
      var n;
      n, digest' := MoveRange(sock, mem, digester, t, v, pos, rest, count, m, len2, digest, doWrite, limit);
      ghost var s1 := Now(sock, mem, digest');
      assert Entries() == v;
      assert Moves(t, v, pos, count, doWrite, limit, s0, s1, n);
      if doWrite {
        WritingKeepsMemory(t, v, pos, count, limit, s0, s1, n);
      }
      if n > count {
        return Invalid, digest;
      }
      if n < 0 {
        return WouldBlock, digest;
      }
      return Moved(n), digest';
    }

    // The checks and the two loops that find the entries of the range.
    method Locate(pos: nat, count: nat) returns (ok: bool, rest: nat, m: nat, len2: nat)
      requires Valid() && pos < 0x1_0000_0000 && count < 0x1_0000_0000
      modifies this`offset, this`consumed
      ensures Valid()
      ensures ok <==> && iov != null && old(offset) <= pos < Total(Entries())
                      && (Wraps(Entries(), pos, count) || pos + count <= Total(Entries()))
      ensures ok ==> consumed < niov && offset + rest == pos && rest < iov[consumed].len
      ensures ok ==> rest == RestIn(Entries(), pos)
      ensures ok && !Wraps(Entries(), pos, count) ==> InLast(iov[..niov], consumed, rest, count, m, len2)
      ensures ok && Wraps(Entries(), pos, count) ==> m == 1 && len2 == rest + count - 0x1_0000_0000 < rest
      ensures iov != null && old(offset) <= pos ==> old(offset) <= offset <= pos
      ensures iov == null || pos < old(offset) ==> offset == old(offset) && consumed == old(consumed)
    {
      rest, m, len2 := 0, 0, 0;
      if iov == null {
        return false, rest, m, len2;
      }
      if pos < offset {
        return false, rest, m, len2;
      }
      if niov <= consumed {
        BetweenAll(iov[..niov], niov);
        BetweenNone(iov[..niov], niov);
        return false, rest, m, len2;
      }
      ok, rest := SkipPassed(pos);
      if !ok {
        return false, rest, m, len2;
      }
      RestIs(iov[..niov], consumed, rest);
      ok, m, len2 := FindLast(rest, count);
    }

    // The same steps after the end has wrapped: the adjusted length is negative, in 64 bits more than SSIZE_MAX, so the
    // kernel refuses the call; then everything is put back.
    method MoveWrapped(sock: Socket, ghost v: seq<Iovec>, rest: nat, len2: nat) returns (n: int)
      requires Valid() && iov != null && v == iov[..niov] && consumed < niov
      requires len2 < rest < 0x1_0000_0000
      modifies iov
      ensures iov[..niov] == v && n == -1
    {
      var savedLen := iov[consumed].len;
      iov[consumed] := Iovec(iov[consumed].base, len2);
      iov[consumed] := Iovec(iov[consumed].base + rest, (iov[consumed].len - rest) % SIZE);
      AddressesOfOne(iov[consumed]);
      n := sock.Refuse(iov[consumed..consumed + 1]);
      iov[consumed] := Iovec(iov[consumed].base - rest, (iov[consumed].len + rest) % SIZE);
      iov[consumed] := Iovec(iov[consumed].base, savedLen);
    }

    // The transfer between adjusting the entries and restoring them.
    method MoveRange(sock: Socket, mem: array<byte>, digester: Digester, ghost t: seq<word>, ghost v: seq<Iovec>,
                     ghost lo: nat, rest: nat, count: nat, m: nat, len2: nat, digest: Option<word>, doWrite: bool,
                     limit: int)
      returns (n: int, digest': Option<word>)
      requires Valid() && iov != null && v == iov[..niov] && AllFit(v, mem.Length)
      requires |t| == 256 && digester.crctable[..] == t && mem != digester.crctable as object && mem != iov as object
      requires iov != digester.crctable as object
      requires consumed < niov && rest < iov[consumed].len && InLast(v, consumed, rest, count, m, len2)
      requires lo == offset + rest
      modifies iov, mem, sock
      ensures iov[..niov] == v
      ensures lo + count <= Total(v) && Inside(Addresses(v), mem.Length)
      ensures Moves(t, v, lo, count, doWrite, limit, old(Now(sock, mem, digest)), Now(sock, mem, digest'), n)
    {
      ghost var s0 := Now(sock, mem, digest);
      var savedLen := Edit(v, rest, m, len2);
      assert Now(sock, mem, digest) == s0;
      n, digest' := MoveEdited(sock, mem, digester, t, v, lo, rest, count, m, len2, digest, doWrite, limit);
      ghost var s1 := Now(sock, mem, digest');
      Restore(v, rest, m, len2, savedLen);
      assert Now(sock, mem, digest') == s1;
      assert Moves(t, v, lo, count, doWrite, limit, s0, s1, n);
    }

    // The transfer while the entries are adjusted.
    method MoveEdited(sock: Socket, mem: array<byte>, digester: Digester, ghost t: seq<word>, ghost v: seq<Iovec>,
                      ghost lo: nat, ghost rest: nat, ghost count: nat, m: nat, ghost len2: nat, digest: Option<word>,
                      doWrite: bool, limit: int)
      returns (n: int, digest': Option<word>)
      requires iov != null && niov <= iov.Length && |v| == niov && consumed < niov && AllFit(v, mem.Length)
      requires rest <= v[consumed].len && InLast(v, consumed, rest, count, m, len2)
      requires forall i :: 0 <= i < niov ==> iov[i] == EditedEntry(v, consumed, m, rest, len2, i)
      requires offset == Between(v, 0, consumed) && lo == offset + rest
      requires |t| == 256 && digester.crctable[..] == t && mem != digester.crctable as object
      modifies mem, sock
      ensures lo + count <= Total(v) && Inside(Addresses(v), mem.Length)
      ensures Moves(t, v, lo, count, doWrite, limit, old(Now(sock, mem, digest)), Now(sock, mem, digest'), n)
    {
      ghost var k := Amount(limit, count, doWrite, |sock.arriving|);
      var vec := iov[consumed..consumed + m];
      ghost var a := Covered(v, consumed, rest, count, m, len2, vec, mem.Length, lo, if k < 0 then 0 else k);
      ghost var s0 := Now(sock, mem, digest);
      n, digest' := Exchange(sock, mem, digester, t, vec, a, digest, doWrite, limit);
      MovesRange(t, v, lo, count, doWrite, limit, s0, Now(sock, mem, digest'), n, a);
    }

    // Adjust the length of the last entry and the start of the first.
    method Edit(ghost v: seq<Iovec>, rest: nat, m: nat, len2: nat) returns (savedLen: nat)
      requires iov != null && niov <= iov.Length && v == iov[..niov] && Editable(v, consumed, m, rest, len2)
      modifies iov
      ensures savedLen == v[consumed + m - 1].len
      ensures forall i :: 0 <= i < niov ==> iov[i] == EditedEntry(v, consumed, m, rest, len2, i)
    {
      var last := consumed + m - 1;
      savedLen := iov[last].len;
      iov[last] := Iovec(iov[last].base, len2);
      iov[consumed] := Iovec(iov[consumed].base + rest, iov[consumed].len - rest);
    }

    // Put the original values back.
    method Restore(ghost v: seq<Iovec>, rest: nat, m: nat, ghost len2: nat, savedLen: nat)
      requires iov != null && niov <= iov.Length && |v| == niov && Editable(v, consumed, m, rest, len2)
      requires forall i :: 0 <= i < niov ==> iov[i] == EditedEntry(v, consumed, m, rest, len2, i)
      requires savedLen == v[consumed + m - 1].len
      modifies iov
      ensures iov[..niov] == v
    {
      var last := consumed + m - 1;
      iov[consumed] := Iovec(iov[consumed].base - rest, iov[consumed].len + rest);
      iov[last] := Iovec(iov[last].base, savedLen);
    }

    // The system call and the digest over what it moved.
    method Exchange(sock: Socket, mem: array<byte>, digester: Digester, ghost t: seq<word>, vec: seq<Iovec>,
                    ghost a: seq<nat>, digest: Option<word>, doWrite: bool, limit: int)
      returns (n: int, digest': Option<word>)
      requires AllFit(vec, mem.Length) && |t| == 256 && digester.crctable[..] == t && mem != digester.crctable as object
      requires var n := Amount(limit, Total(vec), doWrite, |sock.arriving|); n >= 0 ==> a == Addresses(vec)[..n]
      modifies mem, sock
      ensures n == Amount(limit, Total(vec), doWrite, |old(sock.arriving)|)
      ensures n < 0 ==> Now(sock, mem, digest') == old(Now(sock, mem, digest))
      ensures n >= 0 ==> Inside(a, mem.Length)
      ensures n >= 0 ==> Transferred(t, old(Now(sock, mem, digest)), Now(sock, mem, digest'), doWrite, a)
    {
      if doWrite {
        n := sock.Writev(mem, vec, limit);
      } else {
        n := sock.Readv(mem, vec, limit);
      }
      digest' := digest;
      if digest != None && n > 0 {
        var d := UpdateDigest(digester, mem, vec, n, digest.value);
        digest' := Some(d);
      }
      if n == 0 {
        assert Load(mem[..], a) == [];
      }
    }

    // scsi_task_reset_iov
    method Reset()
      requires Valid()
      modifies this`offset, this`consumed
      ensures Valid() && offset == 0 && consumed == 0 && Entries() == old(Entries())
    {
      offset, consumed := 0, 0;
      if iov != null {
        BetweenNone(iov[..niov], 0);
      }
    }
  }

  lemma SubRange(a: seq<nat>, lo: nat, hi: nat, n: nat)
    requires lo <= hi <= |a| && n <= hi - lo
    ensures a[lo..hi][..n] == a[lo..lo + n]
  {
  }

  function After(v: seq<Iovec>, i: nat): (w: seq<Iovec>)
    requires i <= |v|
    ensures |w| == |v| - i
  {
    v[i..]
  }

  // ----- runs of transfers

  lemma LoadFrame(mem: seq<byte>, a: seq<nat>, b: seq<nat>, d: seq<byte>)
    requires Inside(a, |mem|) && Inside(b, |mem|) && |b| == |d|
    requires forall i :: 0 <= i < |a| ==> a[i] !in b
    ensures Load(Store(mem, b, d), a) == Load(mem, a)
  {
    var mem' := Store(mem, b, d);
    forall i | 0 <= i < |a| ensures Load(mem', a)[i] == Load(mem, a)[i] {
      StoreFrame(mem, b, d, a[i]);
    }
  }

  lemma StoreTwice(mem: seq<byte>, a: seq<nat>, b: seq<nat>, arriving: seq<byte>)
    requires Inside(a, |mem|) && Inside(b, |mem|) && |a| + |b| <= |arriving|
    ensures Inside(a + b, |mem|)
    ensures Store(Store(mem, a, arriving[..|a|]), b, arriving[|a|..][..|b|]) == Store(mem, a + b, arriving[..|a + b|])
    ensures arriving[|a|..][|b|..] == arriving[|a + b|..]
  {
    TwoPieces(arriving, |a|, |b|);
    StoreSplit(mem, a, arriving[..|a|], b, arriving[|a|..][..|b|]);
  }

  lemma TwoPieces(s: seq<byte>, m: nat, n: nat)
    requires m + n <= |s|
    ensures s[..m] + s[m..][..n] == s[..m + n] && s[m..][n..] == s[m + n..]
  {
  }

  lemma LoadTwice(mem: seq<byte>, a: seq<nat>, b: seq<nat>)
    requires Inside(a, |mem|) && Inside(b, |mem|)
    ensures Inside(a + b, |mem|) && Load(mem, a + b) == Load(mem, a) + Load(mem, b)
  {
  }

  // However a range is cut into partial transfers, they move and digest the same bytes as one transfer of the whole
  // range. (Buffers that are read into must not overlap: the digest is taken from the buffers.)
  lemma TransfersCompose(t: seq<word>, s0: Picture, s1: Picture, s2: Picture, doWrite: bool, a: seq<nat>, b: seq<nat>)
    requires Transferred(t, s0, s1, doWrite, a) && Transferred(t, s1, s2, doWrite, b)
    requires !doWrite ==> forall i :: 0 <= i < |a| ==> a[i] !in b
    ensures Transferred(t, s0, s2, doWrite, a + b)
  {
    if doWrite {
      LoadTwice(s0.mem, a, b);
      assert s2.sent == s0.sent + (Load(s0.mem, a) + Load(s0.mem, b));
    } else {
      StoreTwice(s0.mem, a, b, s0.arriving);
      LoadFrame(s1.mem, a, b, s1.arriving[..|b|]);
    }
    LoadTwice(s2.mem, a, b);
    if s0.digest != None {
      ChainSplit(t, s0.digest.value, Load(s2.mem, a), Load(s2.mem, b));
    }
  }

  // Reading into buffers that do not overlap puts the arriving bytes there and digests exactly them.
  lemma ReadDeliversArriving(t: seq<word>, s: Picture, s': Picture, a: seq<nat>)
    requires Transferred(t, s, s', false, a) && NoRepeats(a)
    ensures Load(s'.mem, a) == s.arriving[..|a|]
    ensures s.digest != None ==> s'.digest == Some(Chain(t, s.digest.value, s.arriving[..|a|]))
  {
    StoreThenLoad(s.mem, a, s.arriving[..|a|]);
  }

  lemma NothingTransferred(t: seq<word>, s: Picture, doWrite: bool)
    requires |t| == 256
    ensures Transferred(t, s, s, doWrite, [])
  {
    assert Load(s.mem, []) == [];
  }

  // A call of a run: `n` bytes from position `lo` on.
  datatype Call = Call(lo: nat, n: nat)

  // The calls go through the buffers in order, from `from` on; they may leave bytes out.
  predicate InOrder(v: seq<Iovec>, calls: seq<Call>, from: nat) {
    calls == [] ||
    (from <= calls[0].lo && calls[0].lo + calls[0].n <= Total(v) && InOrder(v, calls[1..], calls[0].lo + calls[0].n))
  }

  function Reached(v: seq<Iovec>, calls: seq<Call>, from: nat): (a: seq<nat>)
    requires InOrder(v, calls, from)
  {
    if calls == [] then []
    else Addresses(v)[calls[0].lo..calls[0].lo + calls[0].n] + Reached(v, calls[1..], calls[0].lo + calls[0].n)
  }

  // pictures[i] is how things stand before call i.
  ghost predicate IsRun(t: seq<word>, doWrite: bool, v: seq<Iovec>, pictures: seq<Picture>, calls: seq<Call>, from: nat)
    requires InOrder(v, calls, from)
  {
    |pictures| == |calls| + 1 && |t| == 256 &&
    (calls == [] ||
     (&& Transferred(t, pictures[0], pictures[1], doWrite, Addresses(v)[calls[0].lo..calls[0].lo + calls[0].n])
      && IsRun(t, doWrite, v, pictures[1..], calls[1..], calls[0].lo + calls[0].n)))
  }

  lemma {:induction false} ReachedBehind(v: seq<Iovec>, calls: seq<Call>, from: nat, k: nat) returns (j: nat)
    requires InOrder(v, calls, from) && k < |Reached(v, calls, from)|
    ensures from <= j < Total(v) && Reached(v, calls, from)[k] == Addresses(v)[j]
  {
    var n := calls[0].n;
    if k < n {
      j := calls[0].lo + k;
    } else {
      j := ReachedBehind(v, calls[1..], calls[0].lo + n, k - n);
    }
  }

  lemma ReachedApart(v: seq<Iovec>, calls: seq<Call>, from: nat, lo: nat)
    requires InOrder(v, calls, from) && NoRepeats(Addresses(v)) && lo <= from <= Total(v)
    ensures forall i :: 0 <= i < from - lo ==> Addresses(v)[lo..from][i] !in Reached(v, calls, from)
  {
    forall i | 0 <= i < from - lo ensures Addresses(v)[lo..from][i] !in Reached(v, calls, from) {
      forall k | 0 <= k < |Reached(v, calls, from)| ensures Reached(v, calls, from)[k] != Addresses(v)[lo + i] {
        var p := ReachedBehind(v, calls, from, k);
        assert Differ(Addresses(v), lo + i, p);
      }
    }
  }

  // Any number of calls at non-decreasing positions together are one transfer of all the bytes they reached. (Buffers
  // that are read into must not overlap.)
  lemma {:induction false} RunIsOneTransfer(t: seq<word>, doWrite: bool, v: seq<Iovec>, pictures: seq<Picture>,
                                            calls: seq<Call>, from: nat)
    requires InOrder(v, calls, from) && IsRun(t, doWrite, v, pictures, calls, from)
    requires !doWrite ==> NoRepeats(Addresses(v))
    ensures Transferred(t, pictures[0], pictures[|calls|], doWrite, Reached(v, calls, from))
  {
    if calls == [] {
      NothingTransferred(t, pictures[0], doWrite);
    } else {
      var lo, hi := calls[0].lo, calls[0].lo + calls[0].n;
      RunIsOneTransfer(t, doWrite, v, pictures[1..], calls[1..], hi);
      if !doWrite {
        ReachedApart(v, calls[1..], hi, lo);
      }
      TransfersCompose(t, pictures[0], pictures[1], pictures[|calls|], doWrite, Addresses(v)[lo..hi],
                       Reached(v, calls[1..], hi));
    }
  }

  lemma {:induction false} ReachedOnce(v: seq<Iovec>, calls: seq<Call>, from: nat)
    requires InOrder(v, calls, from) && NoRepeats(Addresses(v))
    ensures NoRepeats(Reached(v, calls, from))
  {
    if calls != [] {
      var lo, hi := calls[0].lo, calls[0].lo + calls[0].n;
      ReachedOnce(v, calls[1..], hi);
      ReachedApart(v, calls[1..], hi, lo);
      PartRepeatsNothing(Addresses(v), lo, hi);
      NoRepeatsJoin(Addresses(v)[lo..hi], Reached(v, calls[1..], hi));
    }
  }

  lemma NoRepeatsJoin(a: seq<nat>, b: seq<nat>)
    requires NoRepeats(a) && NoRepeats(b) && forall i :: 0 <= i < |a| ==> a[i] !in b
    ensures NoRepeats(a + b)
  {
    forall i, j | 0 <= i < j < |a + b| ensures Differ(a + b, i, j) {
      if j < |a| {
        assert Differ(a, i, j);
      } else if i < |a| {
        assert (a + b)[j] == b[j - |a|];
      } else {
        assert Differ(b, i - |a|, j - |a|);
      }
    }
  }

  // So whatever the pieces a reply came in, the buffers hold the arriving bytes in order and the digest saw just these.
  lemma ReadRunDelivers(t: seq<word>, v: seq<Iovec>, pictures: seq<Picture>, calls: seq<Call>, from: nat)
    requires InOrder(v, calls, from) && IsRun(t, false, v, pictures, calls, from) && NoRepeats(Addresses(v))
    ensures var a, s, s' := Reached(v, calls, from), pictures[0], pictures[|calls|];
            && Inside(a, |s'.mem|) && |a| <= |s.arriving|
            && Load(s'.mem, a) == s.arriving[..|a|] && s'.arriving == s.arriving[|a|..]
            && (s.digest != None ==> s'.digest == Some(Chain(t, s.digest.value, s.arriving[..|a|])))
  {
    RunIsOneTransfer(t, false, v, pictures, calls, from);
    ReachedOnce(v, calls, from);
    ReadDeliversArriving(t, pictures[0], pictures[|calls|], Reached(v, calls, from));
  }

  // The objects of a call belong together: the cursor's entries are v and lie in the memory, the digest table is t, and
  // entries, memory and table are three things. (The comparison with `true` keeps this together where it is only passed
  // on.)
  ghost predicate Fits(cursor: Cursor, mem: array<byte>, digester: Digester, t: seq<word>, v: seq<Iovec>)
    reads cursor, cursor.iov, digester.crctable
  {
    Belong(cursor, mem, digester, t, v) == true
  }

  ghost predicate Belong(cursor: Cursor, mem: array<byte>, digester: Digester, t: seq<word>, v: seq<Iovec>)
    reads cursor, cursor.iov, digester.crctable
  {
    && cursor.Valid() && cursor.Entries() == v && AllFit(v, mem.Length) && |t| == 256 && digester.crctable[..] == t
    && mem != digester.crctable as object
    && (cursor.iov != null ==> cursor.iov != mem as object && cursor.iov != digester.crctable as object)
  }

  predicate AllPositive(limits: seq<int>) {
    forall i :: 0 <= i < |limits| ==> limits[i] > 0
  }

  // The same on the objects: call after call goes on where the last one stopped, with whatever the kernel then moves.
  method MoveInTurns(cursor: Cursor, sock: Socket, mem: array<byte>, digester: Digester, ghost t: seq<word>,
                     ghost v: seq<Iovec>, pos: nat, count: nat, digest: Option<word>, doWrite: bool, limits: seq<int>)
    returns (done: nat, digest': Option<word>)
    requires Fits(cursor, mem, digester, t, v) && cursor.iov != null && cursor.offset <= pos
    requires Movable(v, pos, count, doWrite)
    modifies cursor`offset, cursor`consumed, cursor.iov, mem, sock
    ensures Fits(cursor, mem, digester, t, v) && done <= count
    ensures MovedSoFar(t, v, pos, done, doWrite, old(Now(sock, mem, digest)), Now(sock, mem, digest'))
    ensures (doWrite || |old(sock.arriving)| >= count) && |limits| >= count && AllPositive(limits) ==> done == count
  {
    done, digest' := 0, digest;
    ghost var s0 := Now(sock, mem, digest);
    NothingTransferred(t, s0, doWrite);
    assert Addresses(v)[pos..pos] == [];
    for i := 0 to |limits|
      invariant Fits(cursor, mem, digester, t, v) && cursor.iov == old(cursor.iov)
      invariant done <= count && cursor.offset <= pos + done
      invariant MovedSoFar(t, v, pos, done, doWrite, s0, Now(sock, mem, digest'))
      invariant (doWrite || |old(sock.arriving)| >= count) && AllPositive(limits) ==> done >= Min(i, count)
    {
      if done < count {
        LeftToArrive(t, v, pos, done, doWrite, s0, Now(sock, mem, digest'));
        done, digest' := MoveOn(cursor, sock, mem, digester, t, v, pos, done, count, digest', doWrite, limits[i], s0);
      }
    }
  }

  // One turn.
  method MoveOn(cursor: Cursor, sock: Socket, mem: array<byte>, digester: Digester, ghost t: seq<word>,
                ghost v: seq<Iovec>, pos: nat, done: nat, count: nat, digest: Option<word>, doWrite: bool, limit: int,
                ghost s0: Picture)
    returns (done': nat, digest': Option<word>)
    requires Fits(cursor, mem, digester, t, v) && cursor.iov != null && done < count && cursor.offset <= pos + done
    requires Movable(v, pos, count, doWrite)
    requires MovedSoFar(t, v, pos, done, doWrite, s0, Now(sock, mem, digest))
    modifies cursor`offset, cursor`consumed, cursor.iov, mem, sock
    ensures Fits(cursor, mem, digester, t, v) && cursor.offset <= pos + done
    ensures Onward(t, v, pos, done, done', count, doWrite, limit, s0, old(Now(sock, mem, digest)),
                   Now(sock, mem, digest'))
  {
    ghost var s := Now(sock, mem, digest);
    RestIsMovable(v, pos, done, count, doWrite);
    var n;
    ghost var s';
    n, digest', s' := MoveNext(cursor, sock, mem, digester, t, v, pos + done, count - done, digest, doWrite, limit, s);
    MoreMoved(t, v, pos, done, count, doWrite, limit, s0, s, s', n);
    done' := Further(done, n);
  }

  // A range in the buffers that ends below 2^32, and whose reads go to places that are apart.
  ghost predicate HoldsBelow(v: seq<Iovec>, pos: nat, count: nat) {
    pos + count < 0x1_0000_0000 && Holds(v, pos, count)
  }

  ghost predicate Movable(v: seq<Iovec>, pos: nat, count: nat, doWrite: bool) {
    HoldsBelow(v, pos, count) && (!doWrite ==> NoRepeats(Addresses(v)))
  }

  lemma RestIsMovable(v: seq<Iovec>, pos: nat, done: nat, count: nat, doWrite: bool)
    requires Movable(v, pos, count, doWrite) && done < count
    ensures HoldsBelow(v, pos + done, count - done)
  {
  }

  // One of these calls.
  method MoveNext(cursor: Cursor, sock: Socket, mem: array<byte>, digester: Digester, ghost t: seq<word>,
                  ghost v: seq<Iovec>, pos: nat, count: nat, digest: Option<word>, doWrite: bool, limit: int,
                  ghost s: Picture)
    returns (n: int, digest': Option<word>, ghost s': Picture)
    requires Fits(cursor, mem, digester, t, v) && cursor.iov != null && cursor.offset <= pos
    requires HoldsBelow(v, pos, count) && s == Now(sock, mem, digest)
    modifies cursor`offset, cursor`consumed, cursor.iov, mem, sock
    ensures Fits(cursor, mem, digester, t, v) && cursor.offset <= pos
    ensures s' == Now(sock, mem, digest') && Moves(t, v, pos, count, doWrite, limit, s, s', n)
  {
    SmallRangeIsAccepted(v, pos, count);
    var out;
    out, digest' := cursor.ReadvWritev(sock, mem, digester, t, v, pos, count, digest, doWrite, limit);
    n, s' := out.Result(), Now(sock, mem, digest');
  }

  // How much has moved after a call with result `n`.
  function Further(done: nat, n: int): nat {
    if n < 0 then done else done + n
  }

  // The kernel moves something: it takes any, and on a read some has arrived.
  ghost predicate SomeMove(doWrite: bool, limit: int, s: Picture) {
    limit > 0 && (doWrite || |s.arriving| > 0)
  }

  // From `done` bytes to `done'` in one call, and further if the kernel moves something.
  ghost predicate Onward(t: seq<word>, v: seq<Iovec>, pos: nat, done: nat, done': nat, count: nat, doWrite: bool,
                         limit: int, s0: Picture, s: Picture, s': Picture)
  {
    && done <= done' <= count && MovedSoFar(t, v, pos, done', doWrite, s0, s')
    && (SomeMove(doWrite, limit, s) ==> done' > done)
  }

  lemma LeftToArrive(t: seq<word>, v: seq<Iovec>, pos: nat, done: nat, doWrite: bool, s0: Picture, s: Picture)
    requires MovedSoFar(t, v, pos, done, doWrite, s0, s)
    ensures !doWrite ==> |s.arriving| == |s0.arriving| - done
  {
    assert IsPart(Addresses(v)[pos..pos + done], v, pos, done);
  }

  lemma MoreMoved(t: seq<word>, v: seq<Iovec>, pos: nat, done: nat, count: nat, doWrite: bool, limit: int,
                  s0: Picture, s: Picture, s': Picture, n: int)
    requires (!doWrite ==> NoRepeats(Addresses(v))) && done < count
    requires MovedSoFar(t, v, pos, done, doWrite, s0, s)
    requires Moves(t, v, pos + done, count - done, doWrite, limit, s, s', n)
    ensures Onward(t, v, pos, done, Further(done, n), count, doWrite, limit, s0, s, s')
  {
    if n >= 0 {
      PartsMoved(t, v, pos, done, n, doWrite, s0, s, s');
    }
  }

  // Two adjoining parts that were moved.
  lemma PartsMoved(t: seq<word>, v: seq<Iovec>, pos: nat, done: nat, n: nat, doWrite: bool, s0: Picture, s: Picture,
                   s': Picture)
    requires pos + done + n <= Total(v) && (!doWrite ==> NoRepeats(Addresses(v)))
    requires MovedSoFar(t, v, pos, done, doWrite, s0, s) && MovedSoFar(t, v, pos + done, n, doWrite, s, s')
    ensures MovedSoFar(t, v, pos, done + n, doWrite, s0, s')
  {
    forall a | IsPart(a, v, pos, done + n) ensures Transferred(t, s0, s', doWrite, a) {
      var b, c := PartSplits(a, v, pos, done, n, doWrite);
      TransfersCompose(t, s0, s, s', doWrite, b, c);
    }
  }

  lemma PartSplits(a: seq<nat>, v: seq<Iovec>, pos: nat, done: nat, n: nat, doWrite: bool)
    returns (b: seq<nat>, c: seq<nat>)
    requires IsPart(a, v, pos, done + n) && (!doWrite ==> NoRepeats(Addresses(v)))
    ensures IsPart(b, v, pos, done) && IsPart(c, v, pos + done, n) && a == b + c
    ensures !doWrite ==> forall i :: 0 <= i < |b| ==> b[i] !in c
  {
    var all := Addresses(v);
    b, c := all[pos..pos + done], all[pos + done..pos + done + n];
    if !doWrite {
      forall i, j | 0 <= i < done && 0 <= j < n ensures b[i] != c[j] {
        assert Differ(all, pos + i, pos + done + j);
      }
    }
  }

  // The digest over the first `n` bytes of what the entries hold.
  ghost function DigestOf(t: seq<word>, d: word, mem: seq<byte>, v: seq<Iovec>, n: nat): word
    requires |t| == 256 && AllFit(v, |mem|) && n <= Total(v)
  {
    AddressesInside(v, |mem|);
    Chain(t, d, Load(mem, Addresses(v)[..n]))
  }

  lemma ChainChunk(t: seq<word>, d: word, mem: seq<byte>, v: seq<Iovec>, left: nat)
    requires |t| == 256 && |v| > 0 && AllFit(v, |mem|) && FitsIn(v[0], |mem|) && left <= Total(v)
    ensures AllFit(v[1..], |mem|) && 0 <= left - Min(left, v[0].len) <= Total(v[1..])
    ensures DigestOf(t, d, mem, v, left) ==
            DigestOf(t, Chain(t, d, mem[v[0].base..v[0].base + Min(left, v[0].len)]), mem, v[1..],
                     left - Min(left, v[0].len))
  {
    var chunk, e, rest := Min(left, v[0].len), v[0].base, v[1..];
    forall i | 0 <= i < |rest| ensures FitsIn(rest[i], |mem|) {
      assert FitsIn(v[i + 1], |mem|);
    }
    AddressesInside(v, |mem|);
    AddressesInside(rest, |mem|);
    FrontOfSum(Span(v[0]), Addresses(rest), left);
    var a := Addresses(v)[..left];
    LoadSplit(mem, a, chunk);
    assert Load(mem, a[..chunk]) == mem[e..e + chunk];
    ChainSplit(t, d, Load(mem, a[..chunk]), Load(mem, a[chunk..]));
  }

  lemma FrontOfSum(a: seq<nat>, b: seq<nat>, n: nat)
    requires n <= |a| + |b|
    ensures (a + b)[..n][..Min(n, |a|)] == a[..Min(n, |a|)]
    ensures (a + b)[..n][Min(n, |a|)..] == b[..n - Min(n, |a|)]
  {
  }
}
