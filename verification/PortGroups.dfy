// The decoder of a REPORT TARGET PORT GROUPS reply: scsi_report_target_port_groups_unmarshal in lib/scsi-lowlevel.c.
// It walks over the reply twice: once to count and allocate, once to fill.
module PortGroups {
  import opened Bytes

  // `at` is where the group's ports begin in the common array of ports.
  datatype Group = Group(byte0: byte, flags: byte, portGroup: int, status: byte, portCount: byte, retrieved: nat,
                         at: nat)

  function Uint16(d: seq<byte>, i: nat): int
    requires i + 1 < |d|
  {
    d[i] as int * 256 + d[i + 1] as int
  }

  // ----- the walk

  // Whether a group descriptor begins at i, and how many of its ports the reply still holds.
  predicate Begins(d: seq<byte>, i: nat) {
    i < |d| && |d| - i >= 8
  }

  function Retrieved(d: seq<byte>, i: nat): (k: nat)
    requires Begins(d, i)
    ensures k <= d[i + 7] && i + 8 + k * 4 <= |d|
    ensures k < d[i + 7] ==> |d| < i + 8 + (k + 1) * 4
  {
    var room := (|d| - i - 8) / 4;
    if d[i + 7] < room then d[i + 7] else room
  }

  function Behind(d: seq<byte>, i: nat): (j: nat)
    requires Begins(d, i)
    ensures i < j <= |d|
  {
    i + 8 + Retrieved(d, i) * 4
  }

  function GroupAt(d: seq<byte>, i: nat, at: nat): Group
    requires Begins(d, i)
  {
    Group(d[i], d[i + 1], Uint16(d, i + 2), d[i + 5], d[i + 7], Retrieved(d, i), at)
  }

  // The first k ports of the group at i.
  function PortsAt(d: seq<byte>, i: nat, k: nat): (ps: seq<int>)
    requires Begins(d, i) && i + 8 + k * 4 <= |d|
    ensures |ps| == k
  {
    seq(k, n requires 0 <= n < k => Uint16(d, i + 8 + n * 4 + 2))
  }

  // All groups and all ports from i on.
  function Groups(d: seq<byte>, i: nat, at: nat): seq<Group>
    decreases |d| - i
  {
    if !Begins(d, i) then []
    else [GroupAt(d, i, at)] + Groups(d, Behind(d, i), at + Retrieved(d, i))
  }

  function Ports(d: seq<byte>, i: nat): seq<int>
    decreases |d| - i
  {
    if !Begins(d, i) then []
    else PortsAt(d, i, Retrieved(d, i)) + Ports(d, Behind(d, i))
  }

  // ----- what the result means

  // The ports of the groups lie one behind the other and together are all ports.
  predicate Partition(gs: seq<Group>, from: nat, end: nat) {
    if gs == [] then from == end else gs[0].at == from && Partition(gs[1..], from + gs[0].retrieved, end)
  }

  lemma {:induction false} GroupsPartitionPorts(d: seq<byte>, i: nat, at: nat, end: nat)
    requires end == at + |Ports(d, i)|
    ensures Partition(Groups(d, i, at), at, end)
    decreases |d| - i
  {
    if Begins(d, i) {
      var g, rest := GroupAt(d, i, at), Groups(d, Behind(d, i), at + Retrieved(d, i));
      GroupsPartitionPorts(d, Behind(d, i), at + Retrieved(d, i), end);
      assert ([g] + rest)[1..] == rest;
    }
  }

  // Only the last group can lack ports, and then the reply ends within the next port.
  lemma {:induction false} OnlyLastIsCutShort(d: seq<byte>, i: nat, at: nat, g: nat)
    requires g < |Groups(d, i, at)| && Groups(d, i, at)[g].retrieved < Groups(d, i, at)[g].portCount
    ensures g == |Groups(d, i, at)| - 1
    decreases |d| - i
  {
    var j := Behind(d, i);
    if g == 0 {
      assert !Begins(d, j);
    } else {
      OnlyLastIsCutShort(d, j, at + Retrieved(d, i), g - 1);
    }
  }

  // ----- the inverse: a reply made of descriptors

  datatype Descriptor = Descriptor(byte0: byte, flags: byte, portGroup: int, reserved: byte, status: byte,
                                   vendor: byte, ports: seq<int>)

  predicate WellFormed(x: Descriptor) {
    0 <= x.portGroup < 0x1_0000 && |x.ports| < 256 && forall n :: 0 <= n < |x.ports| ==> 0 <= x.ports[n] < 0x1_0000
  }

  predicate AllWellFormed(xs: seq<Descriptor>) {
    forall n :: 0 <= n < |xs| ==> WellFormed(xs[n])
  }

  function PortCount(x: Descriptor): byte
    requires WellFormed(x)
  {
    |x.ports|
  }

  function EncodePorts(ps: seq<int>): (s: seq<byte>)
    requires forall n :: 0 <= n < |ps| ==> 0 <= ps[n] < 0x1_0000
    ensures |s| == |ps| * 4
  {
    if ps == [] then [] else [0, 0, ps[0] / 256, ps[0] % 256] + EncodePorts(ps[1..])
  }

  function EncodeGroup(x: Descriptor): (s: seq<byte>)
    requires WellFormed(x)
    ensures |s| == 8 + |x.ports| * 4
  {
    [x.byte0, x.flags, x.portGroup / 256, x.portGroup % 256, x.reserved, x.status, x.vendor, |x.ports|] +
      EncodePorts(x.ports)
  }

  function Encode(xs: seq<Descriptor>): seq<byte>
    requires AllWellFormed(xs)
  {
    if xs == [] then [] else EncodeGroup(xs[0]) + Encode(xs[1..])
  }

  function ExpectedGroups(xs: seq<Descriptor>, at: nat): seq<Group>
    requires AllWellFormed(xs)
  {
    if xs == [] then []
    else
      var x := xs[0];
      [Group(x.byte0, x.flags, x.portGroup, x.status, PortCount(x), |x.ports|, at)] +
        ExpectedGroups(xs[1..], at + |x.ports|)
  }

  function ExpectedPorts(xs: seq<Descriptor>): seq<int> {
    if xs == [] then [] else xs[0].ports + ExpectedPorts(xs[1..])
  }

  lemma {:induction false} EncodedPort(ps: seq<int>, n: nat)
    requires (forall m :: 0 <= m < |ps| ==> 0 <= ps[m] < 0x1_0000) && n < |ps|
    ensures Uint16(EncodePorts(ps), n * 4 + 2) == ps[n]
  {
    if n > 0 {
      EncodedPort(ps[1..], n - 1);
    }
  }

  lemma PortsOfEncoding(pre: seq<byte>, x: Descriptor, post: seq<byte>, d: seq<byte>)
    requires WellFormed(x) && d == pre + EncodeGroup(x) + post
    ensures Begins(d, |pre|) && Retrieved(d, |pre|) == |x.ports| && Behind(d, |pre|) == |pre + EncodeGroup(x)|
    ensures PortsAt(d, |pre|, |x.ports|) == x.ports
    ensures forall at: nat ::
              GroupAt(d, |pre|, at) == Group(x.byte0, x.flags, x.portGroup, x.status, PortCount(x), |x.ports|, at)
  {
    var i, e := |pre|, EncodeGroup(x);
    Middle(pre, e, post, d);
    HeadBytes(x);
    HeadOf(x, d, i);
    PortsOf(x, d, i);
  }

  ghost predicate StandsAt(d: seq<byte>, i: nat, e: seq<byte>) {
    i + |e| <= |d| && forall n :: 0 <= n < |e| ==> d[i + n] == e[n]
  }

  lemma Middle(pre: seq<byte>, e: seq<byte>, post: seq<byte>, d: seq<byte>)
    requires d == pre + e + post
    ensures StandsAt(d, |pre|, e)
  {
  }

  lemma HeadOf(x: Descriptor, d: seq<byte>, i: nat)
    requires WellFormed(x) && StandsAt(d, i, EncodeGroup(x))
    ensures Begins(d, i) && Retrieved(d, i) == |x.ports| && Behind(d, i) == i + |EncodeGroup(x)|
    ensures forall at: nat ::
              GroupAt(d, i, at) == Group(x.byte0, x.flags, x.portGroup, x.status, PortCount(x), |x.ports|, at)
  {
    var e := EncodeGroup(x);
    HeadBytes(x);
    assert d[i + 0] == e[0] && d[i + 1] == e[1] && d[i + 2] == e[2] && d[i + 3] == e[3] && d[i + 5] == e[5] &&
           d[i + 7] == e[7];
  }

  lemma PortsOf(x: Descriptor, d: seq<byte>, i: nat)
    requires WellFormed(x) && StandsAt(d, i, EncodeGroup(x)) && Begins(d, i)
    ensures PortsAt(d, i, |x.ports|) == x.ports
  {
    var e := EncodeGroup(x);
    forall n | 0 <= n < |x.ports| ensures PortsAt(d, i, |x.ports|)[n] == x.ports[n] {
      EncodedPort(x.ports, n);
      PortBytes(x, n);
      assert d[i + (8 + n * 4 + 2)] == e[8 + n * 4 + 2] && d[i + (8 + n * 4 + 3)] == e[8 + n * 4 + 3];
    }
  }

  lemma HeadBytes(x: Descriptor)
    requires WellFormed(x)
    ensures var e := EncodeGroup(x);
            && e[0] == x.byte0 && e[1] == x.flags && Uint16(e, 2) == x.portGroup && e[5] == x.status
            && e[7] == PortCount(x)
  {
  }

  lemma PortBytes(x: Descriptor, n: nat)
    requires WellFormed(x) && n < |x.ports|
    ensures var e, p := EncodeGroup(x), EncodePorts(x.ports);
            e[8 + n * 4 + 2] == p[n * 4 + 2] && e[8 + n * 4 + 3] == p[n * 4 + 3]
  {
  }

  // A reply made of descriptors is decoded into exactly these, whatever stands before them.
  lemma {:induction false} DecodeOfEncode(pre: seq<byte>, xs: seq<Descriptor>, at: nat)
    requires AllWellFormed(xs)
    ensures Groups(pre + Encode(xs), |pre|, at) == ExpectedGroups(xs, at)
    ensures Ports(pre + Encode(xs), |pre|) == ExpectedPorts(xs)
    decreases |xs|
  {
    var d := pre + Encode(xs);
    if xs != [] {
      var pre' := pre + EncodeGroup(xs[0]);
      assert d == pre' + Encode(xs[1..]);
      PortsOfEncoding(pre, xs[0], Encode(xs[1..]), d);
      DecodeOfEncode(pre', xs[1..], at + |xs[0].ports|);
    }
  }

  // ----- the source's two passes

  datatype Reply = Nothing | Decoded(groups: seq<Group>, ports: seq<int>)

  // The allocated result; the counting pass has none yet.
  ghost predicate Room(s: seq<byte>, groups: array?<Group>, ports: array?<int>) {
    && (groups == null <==> ports == null)
    && (groups != null ==> groups != ports as object)
    && (groups != null ==> groups.Length == |Groups(s, 4, 0)| && ports.Length == |Ports(s, 4)|)
  }

  // The first groups and ports are filled in.
  ghost predicate Filled(groups: array?<Group>, ports: array?<int>, gs: seq<Group>, ps: seq<int>)
    reads groups, ports
  {
    groups != null && ports != null ==>
      && |gs| <= groups.Length && groups[..|gs|] == gs
      && |ps| <= ports.Length && ports[..|ps|] == ps
  }

  // Where a pass stands: gs and ps are the groups and ports before i.
  ghost predicate Walked(s: seq<byte>, i: nat, gs: seq<Group>, ps: seq<int>) {
    gs + Groups(s, i, |ps|) == Groups(s, 4, 0) && ps + Ports(s, i) == Ports(s, 4)
  }

  lemma WalkOn(s: seq<byte>, i: nat, gs: seq<Group>, ps: seq<int>)
    requires Walked(s, i, gs, ps) && Begins(s, i)
    ensures var k := Retrieved(s, i);
            Walked(s, Behind(s, i), gs + [GroupAt(s, i, |ps|)], ps + PortsAt(s, i, k))
    ensures |gs| < |Groups(s, 4, 0)| && |ps| + Retrieved(s, i) <= |Ports(s, 4)|
  {
    var g, rest := GroupAt(s, i, |ps|), Groups(s, Behind(s, i), |ps| + Retrieved(s, i));
    assert gs + [g] + rest == gs + ([g] + rest);
    assert ps + PortsAt(s, i, Retrieved(s, i)) + Ports(s, Behind(s, i)) ==
             ps + (PortsAt(s, i, Retrieved(s, i)) + Ports(s, Behind(s, i)));
  }

  lemma WalkEnds(s: seq<byte>, i: nat, gs: seq<Group>, ps: seq<int>)
    requires Walked(s, i, gs, ps) && !Begins(s, i)
    ensures gs == Groups(s, 4, 0) && ps == Ports(s, 4)
  {
  }

  // One pass over the reply.
  method Pass(d: array<byte>, groups: array?<Group>, ports: array?<int>) returns (groupCount: nat, portCount: nat)
    requires Room(d[..], groups, ports) && (groups != null ==> groups != d as object && ports != d as object)
    modifies groups, ports
    ensures d[..] == old(d[..])
    ensures groupCount == |Groups(d[..], 4, 0)| && portCount == |Ports(d[..], 4)|
    ensures Filled(groups, ports, Groups(d[..], 4, 0), Ports(d[..], 4))
  {
    ghost var s := d[..];
    var i := 4;
    groupCount, portCount := 0, 0;
    ghost var gs: seq<Group>, ps: seq<int> := [], [];
    while i < d.Length
      invariant 4 <= i && d[..] == s && |gs| == groupCount && |ps| == portCount
      invariant Walked(s, i, gs, ps) && Filled(groups, ports, gs, ps)
    {
      if d.Length - i < 8 {
        break;
      }
      WalkOn(s, i, gs, ps);
      var k := TakeGroup(d, i, groups, ports, groupCount, portCount, s, gs, ps);
      gs, ps := gs + [GroupAt(s, i, portCount)], ps + PortsAt(s, i, k);
      groupCount := groupCount + 1;
      portCount := portCount + k;
      i := i + 8 + k * 4;
    }
    WalkEnds(s, i, gs, ps);
  }

  // The descriptor at i; the filling pass stores it with its ports.
  method TakeGroup(d: array<byte>, i: nat, groups: array?<Group>, ports: array?<int>, groupCount: nat, portCount: nat,
                   ghost s: seq<byte>, ghost gs: seq<Group>, ghost ps: seq<int>)
    returns (k: nat)
    requires Room(s, groups, ports) && s == d[..] && (groups != null ==> groups != d as object && ports != d as object)
    requires Begins(s, i) && Filled(groups, ports, gs, ps) && groupCount == |gs| && portCount == |ps|
    requires |gs| < |Groups(s, 4, 0)| && |ps| + Retrieved(s, i) <= |Ports(s, 4)|
    modifies groups, ports
    ensures k == Retrieved(s, i) && d[..] == s
    ensures Filled(groups, ports, gs + [GroupAt(s, i, portCount)], ps + PortsAt(s, i, k))
  {
    var currentPortCount := d[i + 7];
    k := 0;
    while k < currentPortCount && i + 8 + (k + 1) * 4 <= d.Length
      invariant k <= Retrieved(s, i) && d[..] == s
      invariant Filled(groups, ports, gs, ps + PortsAt(s, i, k))
    {
      if ports != null {
        var at := i + 8 + k * 4 + 2;
        ports[portCount + k] := d[at] as int * 256 + d[at + 1] as int;
        assert PortsAt(s, i, k + 1) == PortsAt(s, i, k) + [Uint16(s, at)];
        assert ports[..portCount + k + 1] == ps + PortsAt(s, i, k + 1);
      }
      k := k + 1;
    }
    if groups != null {
      var portGroup := d[i + 2] as int * 256 + d[i + 3] as int;
      groups[groupCount] := Group(d[i], d[i + 1], portGroup, d[i + 5], currentPortCount, k, portCount);
      assert groups[..groupCount + 1] == gs + [GroupAt(s, i, portCount)];
    }
  }

  // Count, allocate, fill.
  method Unmarshal(d: array<byte>) returns (r: Reply)
    ensures r == if d.Length < 4 then Nothing else Decoded(Groups(d[..], 4, 0), Ports(d[..], 4))
  {
    if d.Length < 4 {
      return Nothing;
    }
    var groupCount, portCount := Pass(d, null, null);
    var groups := new Group[groupCount](_ => Group(0, 0, 0, 0, 0, 0, 0));
    var ports := new int[portCount](_ => 0);
    groupCount, portCount := Pass(d, groups, ports);
    assert groups[..] == groups[..groupCount] && ports[..] == ports[..portCount];
    return Decoded(groups[..], ports[..]);
  }
}
