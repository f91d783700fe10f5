// Mode pages in lib/scsi-lowlevel.c: marshalling the caching, power condition and informational exceptions pages, and
// the walk over the pages of a mode sense reply.
module ModePages {
  import opened Common
  import opened Bytes
  import opened ScsiBytes

  const CACHING := 0x08
  const POWER_CONDITION := 0x1a
  const INFORMATIONAL_EXCEPTIONS := 0x1c
  const CONTROL := 0x0a
  const DISCONNECT_RECONNECT := 0x02

  // The fields of the pages. One-bit fields are booleans; the others are integers as in the source.
  datatype Caching = Caching(
    ic: bool, abpf: bool, cap: bool, disc: bool, size: bool, wce: bool, mf: bool, rcd: bool,
    demandReadRetention: int, writeRetention: int,
    disablePrefetch: int, minimumPrefetch: int, maximumPrefetch: int, prefetchCeiling: int,
    fsw: bool, lbcss: bool, dra: bool, nvDis: bool, segments: int, segmentSize: int)

  datatype PowerCondition = PowerCondition(
    precedence: int, standbyY: bool, idleC: bool, idleB: bool, idleA: bool, standbyZ: bool,
    idleATimer: int, standbyZTimer: int, idleBTimer: int, idleCTimer: int, standbyYTimer: int,
    ccfIdle: int, ccfStandby: int, ccfStopped: int)

  datatype Exceptions = Exceptions(
    perf: bool, ebf: bool, ewasc: bool, dexcpt: bool, test: bool, ebackerr: bool, logerr: bool,
    mrie: int, interval: int, reports: int)

  // Other is a page of any other code: the walk passes it, its fields are not part of this model.
  datatype Body = CachingBody(c: Caching) | PowerBody(p: PowerCondition) | ExceptionsBody(x: Exceptions) | Other

  datatype Page = Page(ps: int, spf: int, code: int, subpage: int, len: int, body: Body)

  // Fields that fit their bits. The interval and count of the exceptions page are signed 32-bit integers.
  predicate NormalCaching(c: Caching) {
    && 0 <= c.demandReadRetention < 16 && 0 <= c.writeRetention < 16 && 0 <= c.segments < 0x100
    && 0 <= c.disablePrefetch < 0x1_0000 && 0 <= c.minimumPrefetch < 0x1_0000 && 0 <= c.maximumPrefetch < 0x1_0000
    && 0 <= c.prefetchCeiling < 0x1_0000 && 0 <= c.segmentSize < 0x1_0000
  }

  predicate NormalPower(p: PowerCondition) {
    && 0 <= p.precedence < 4 && 0 <= p.ccfIdle < 4 && 0 <= p.ccfStandby < 4 && 0 <= p.ccfStopped < 4
    && 0 <= p.idleATimer < 0x1_0000_0000 && 0 <= p.standbyZTimer < 0x1_0000_0000 && 0 <= p.idleBTimer < 0x1_0000_0000
    && 0 <= p.idleCTimer < 0x1_0000_0000 && 0 <= p.standbyYTimer < 0x1_0000_0000
  }

  predicate NormalExceptions(x: Exceptions) {
    0 <= x.mrie < 16 && IsInt32(x.interval) && IsInt32(x.reports)
  }

  predicate IsInt32(v: int) {
    -0x8000_0000 <= v < 0x8000_0000
  }

  function Int32(v: int): int {
    if v >= 0x8000_0000 then v - 0x1_0000_0000 else v
  }

  // ----- parsing

  function ParseCaching(d: seq<byte>, pos: nat): Caching {
    var flags, retention, more := Get8(d, pos), Get8(d, pos + 1), Get8(d, pos + 10);
    Caching(
      Bit7(flags), Bit6(flags), Bit5(flags), Bit4(flags), Bit3(flags), Bit2(flags), Bit1(flags), Bit0(flags),
      retention / 16 % 16, retention % 16,
      Get16(d, pos + 2), Get16(d, pos + 4), Get16(d, pos + 6), Get16(d, pos + 8),
      Bit7(more), Bit6(more), Bit5(more), Bit0(more), Get8(d, pos + 11), Get16(d, pos + 12))
  }

  function ParsePower(d: seq<byte>, pos: nat): PowerCondition {
    var first, flags, ccf := Get8(d, pos), Get8(d, pos + 1), Get8(d, pos + 37);
    PowerCondition(
      first / 64 % 4, Bit0(first), Bit3(flags), Bit2(flags), Bit1(flags), Bit0(flags),
      Get32(d, pos + 2), Get32(d, pos + 6), Get32(d, pos + 10), Get32(d, pos + 14), Get32(d, pos + 18),
      ccf / 64 % 4, ccf / 16 % 4, ccf / 4 % 4)
  }

  function ParseExceptions(d: seq<byte>, pos: nat): Exceptions {
    var flags := Get8(d, pos);
    Exceptions(
      Bit7(flags), Bit5(flags), Bit4(flags), Bit3(flags), Bit2(flags), Bit1(flags), Bit0(flags),
      Get8(d, pos + 1) % 16, Int32(Get32(d, pos + 2)), Int32(Get32(d, pos + 6)))
  }

  function ParseBody(d: seq<byte>, code: int, pos: nat): Body {
    if code == CACHING then CachingBody(ParseCaching(d, pos))
    else if code == POWER_CONDITION then PowerBody(ParsePower(d, pos))
    else if code == INFORMATIONAL_EXCEPTIONS then ExceptionsBody(ParseExceptions(d, pos))
    else Other
  }

  // Where the fields of the page at pos begin, and how many bytes they are said to take.
  function BodyPos(d: seq<byte>, pos: nat): nat {
    if Bit6(Get8(d, pos)) then pos + 4 else pos + 2
  }

  function BodyLen(d: seq<byte>, pos: nat): nat {
    if Bit6(Get8(d, pos)) then Get16(d, pos + 2) else Get8(d, pos + 1)
  }

  function PageAt(d: seq<byte>, pos: nat): Page {
    var b := Get8(d, pos);
    var code := b % 64;
    Page(if Bit7(b) then 0x80 else 0, if Bit6(b) then 0x40 else 0, code,
         if Bit6(b) then Get8(d, pos + 1) else 0, BodyLen(d, pos), ParseBody(d, code, BodyPos(d, pos)))
  }

  // The walk puts every page in front of the ones found before.
  function Walk(d: seq<byte>, pos: nat, found: seq<Page>): seq<Page>
    decreases |d| - pos
  {
    if pos >= |d| then found
    else Walk(d, BodyPos(d, pos) + BodyLen(d, pos), [PageAt(d, pos)] + found)
  }

  datatype ModeSense = ModeSense(
    dataLength: int, mediumType: int, deviceSpecific: int, longLba: int, blockDescriptorLength: int, pages: seq<Page>)

  // The block descriptor length is kept in eight bits, also when it is read from sixteen.
  function Unmarshal(d: seq<byte>, six: bool): Option<ModeSense> {
    var hdr := if six then 4 else 8;
    if |d| < hdr then None
    else
      var length := if six then Get8(d, 0) else Get16(d, 0);
      var descriptors := if six then Get8(d, 3) else Get16(d, 6) % 0x100;
      if length + 1 > |d| then None
      else Some(ModeSense(length, Get8(d, if six then 1 else 2), Get8(d, if six then 2 else 3),
                          if six then 0 else Get8(d, 4) % 2, descriptors, Walk(d, hdr + descriptors, [])))
  }

  // ----- marshalling

  // The bytes behind the first two of a page.
  function CachingBytes(c: Caching): (s: seq<byte>)
    ensures |s| == 18
  {
    [FlagByte(c.ic, c.abpf, c.cap, c.disc, c.size, c.wce, c.mf, c.rcd),
     c.demandReadRetention % 16 * 16 + c.writeRetention % 16,
     B1(c.disablePrefetch), B0(c.disablePrefetch), B1(c.minimumPrefetch), B0(c.minimumPrefetch),
     B1(c.maximumPrefetch), B0(c.maximumPrefetch), B1(c.prefetchCeiling), B0(c.prefetchCeiling),
     FlagByte(c.fsw, c.lbcss, c.dra, false, false, false, false, c.nvDis), B0(c.segments),
     B1(c.segmentSize), B0(c.segmentSize), 0, 0, 0, 0]
  }

  function PowerBytes(p: PowerCondition): (s: seq<byte>)
    ensures |s| == 38
  {
    [p.precedence % 4 * 64 + Flag(p.standbyY, 1),
     FlagByte(false, false, false, false, p.idleC, p.idleB, p.idleA, p.standbyZ),
     B3(p.idleATimer), B2(p.idleATimer), B1(p.idleATimer), B0(p.idleATimer),
     B3(p.standbyZTimer), B2(p.standbyZTimer), B1(p.standbyZTimer), B0(p.standbyZTimer),
     B3(p.idleBTimer), B2(p.idleBTimer), B1(p.idleBTimer), B0(p.idleBTimer),
     B3(p.idleCTimer), B2(p.idleCTimer), B1(p.idleCTimer), B0(p.idleCTimer),
     B3(p.standbyYTimer), B2(p.standbyYTimer), B1(p.standbyYTimer), B0(p.standbyYTimer),
     0, 0, 0, 0, 0, 0, 0, 0, 0, 0, 0, 0, 0, 0, 0,
     p.ccfIdle % 4 * 64 + p.ccfStandby % 4 * 16 + p.ccfStopped % 4 * 4]
  }

  function ExceptionsBytes(x: Exceptions): (s: seq<byte>)
    ensures |s| == 10
  {
    [FlagByte(x.perf, false, x.ebf, x.ewasc, x.dexcpt, x.test, x.ebackerr, x.logerr), x.mrie % 16,
     B3(x.interval), B2(x.interval), B1(x.interval), B0(x.interval),
     B3(x.reports), B2(x.reports), B1(x.reports), B0(x.reports)]
  }

  // ----- one page there and back

  lemma CachingReads(d: seq<byte>, pos: nat, s: seq<byte>)
    requires Embeds(d, pos, s) && |s| >= 14
    ensures ParseCaching(d, pos) == ParseCaching(s, 0)
  {
    EmbeddedReads(d, pos, s, 0);
    EmbeddedReads(d, pos, s, 1);
    EmbeddedReads(d, pos, s, 2);
    EmbeddedReads(d, pos, s, 4);
    EmbeddedReads(d, pos, s, 6);
    EmbeddedReads(d, pos, s, 8);
    EmbeddedReads(d, pos, s, 10);
    EmbeddedReads(d, pos, s, 11);
    EmbeddedReads(d, pos, s, 12);
  }

  // What comes back: the fields cut down to their bits.
  function CutCaching(c: Caching): (r: Caching)
    ensures NormalCaching(r)
    ensures r == c <==> NormalCaching(c)
  {
    c.(demandReadRetention := c.demandReadRetention % 16, writeRetention := c.writeRetention % 16,
       disablePrefetch := c.disablePrefetch % 0x1_0000, minimumPrefetch := c.minimumPrefetch % 0x1_0000,
       maximumPrefetch := c.maximumPrefetch % 0x1_0000, prefetchCeiling := c.prefetchCeiling % 0x1_0000,
       segments := c.segments % 0x100, segmentSize := c.segmentSize % 0x1_0000)
  }

  lemma CachingWords(c: Caching, s: seq<byte>)
    requires CachingWordsLaid(c, s)
    ensures Get16(s, 2) == c.disablePrefetch % 0x1_0000 && Get16(s, 4) == c.minimumPrefetch % 0x1_0000
    ensures Get16(s, 6) == c.maximumPrefetch % 0x1_0000 && Get16(s, 8) == c.prefetchCeiling % 0x1_0000
    ensures Get16(s, 12) == c.segmentSize % 0x1_0000
  {
    GetsWord(s, 2, c.disablePrefetch);
    GetsWord(s, 4, c.minimumPrefetch);
    GetsWord(s, 6, c.maximumPrefetch);
    GetsWord(s, 8, c.prefetchCeiling);
    GetsWord(s, 12, c.segmentSize);
  }

  lemma CachingFlags(c: Caching, a: byte, b: byte)
    requires a == FlagByte(c.ic, c.abpf, c.cap, c.disc, c.size, c.wce, c.mf, c.rcd)
    requires b == FlagByte(c.fsw, c.lbcss, c.dra, false, false, false, false, c.nvDis)
    ensures Bit7(a) == c.ic && Bit6(a) == c.abpf && Bit5(a) == c.cap && Bit4(a) == c.disc
    ensures Bit3(a) == c.size && Bit2(a) == c.wce && Bit1(a) == c.mf && Bit0(a) == c.rcd
    ensures Bit7(b) == c.fsw && Bit6(b) == c.lbcss && Bit5(b) == c.dra && Bit0(b) == c.nvDis
  {
    BitsOfFlags(c.ic, c.abpf, c.cap, c.disc, c.size, c.wce, c.mf, c.rcd);
    BitsOfFlags(c.fsw, c.lbcss, c.dra, false, false, false, false, c.nvDis);
  }

  lemma CachingSingles(c: Caching, s: seq<byte>)
    requires s == CachingBytes(c)
    ensures Get8(s, 0) == FlagByte(c.ic, c.abpf, c.cap, c.disc, c.size, c.wce, c.mf, c.rcd)
    ensures Get8(s, 10) == FlagByte(c.fsw, c.lbcss, c.dra, false, false, false, false, c.nvDis)
    ensures Get8(s, 1) / 16 % 16 == c.demandReadRetention % 16 && Get8(s, 1) % 16 == c.writeRetention % 16
    ensures Get8(s, 11) == c.segments % 0x100
  {
    TwoNibbles(c.demandReadRetention % 16, c.writeRetention % 16);
  }

  lemma CachingThereAndBack(c: Caching)
    ensures ParseCaching(CachingBytes(c), 0) == CutCaching(c)
  {
    var s := CachingBytes(c);
    CachingLayout(c);
    CachingWords(c, s);
    CachingSingles(c, s);
    CachingFlags(c, Get8(s, 0), Get8(s, 10));
  }

  lemma TwoNibbles(high: nat, low: nat)
    requires high < 16 && low < 16
    ensures (high * 16 + low) / 16 % 16 == high && (high * 16 + low) % 16 == low
  {
  }

  lemma PowerReads(d: seq<byte>, pos: nat, s: seq<byte>)
    requires Embeds(d, pos, s) && |s| >= 38
    ensures ParsePower(d, pos) == ParsePower(s, 0)
  {
    EmbeddedReads(d, pos, s, 0);
    EmbeddedReads(d, pos, s, 1);
    EmbeddedReads(d, pos, s, 2);
    EmbeddedReads(d, pos, s, 6);
    EmbeddedReads(d, pos, s, 10);
    EmbeddedReads(d, pos, s, 14);
    EmbeddedReads(d, pos, s, 18);
    EmbeddedReads(d, pos, s, 37);
  }

  function CutPower(p: PowerCondition): (r: PowerCondition)
    ensures NormalPower(r)
    ensures r == p <==> NormalPower(p)
  {
    p.(precedence := p.precedence % 4, ccfIdle := p.ccfIdle % 4, ccfStandby := p.ccfStandby % 4,
       ccfStopped := p.ccfStopped % 4,
       idleATimer := p.idleATimer % 0x1_0000_0000, standbyZTimer := p.standbyZTimer % 0x1_0000_0000,
       idleBTimer := p.idleBTimer % 0x1_0000_0000, idleCTimer := p.idleCTimer % 0x1_0000_0000,
       standbyYTimer := p.standbyYTimer % 0x1_0000_0000)
  }

  // A 32-bit field stands at k.
  predicate LongAt(s: seq<byte>, k: nat, v: int) {
    k + 4 <= |s| && s[k] == B3(v) && s[k + 1] == B2(v) && s[k + 2] == B1(v) && s[k + 3] == B0(v)
  }

  lemma PowerLayout(p: PowerCondition)
    ensures PowerLongsLaid(p, PowerBytes(p))
  {
    PowerFront(p);
    PowerBack(p);
  }

  lemma PowerFront(p: PowerCondition)
    ensures LongAt(PowerBytes(p), 2, p.idleATimer) && LongAt(PowerBytes(p), 6, p.standbyZTimer)
  {
  }

  lemma PowerBack(p: PowerCondition)
    ensures LongAt(PowerBytes(p), 10, p.idleBTimer) && LongAt(PowerBytes(p), 14, p.idleCTimer)
    ensures LongAt(PowerBytes(p), 18, p.standbyYTimer)
  {
  }

  lemma PowerLongs(p: PowerCondition, s: seq<byte>)
    requires PowerLongsLaid(p, s)
    ensures Get32(s, 2) == p.idleATimer % 0x1_0000_0000 && Get32(s, 6) == p.standbyZTimer % 0x1_0000_0000
    ensures Get32(s, 10) == p.idleBTimer % 0x1_0000_0000 && Get32(s, 14) == p.idleCTimer % 0x1_0000_0000
    ensures Get32(s, 18) == p.standbyYTimer % 0x1_0000_0000
  {
    GetsLong(s, 2, p.idleATimer);
    GetsLong(s, 6, p.standbyZTimer);
    GetsLong(s, 10, p.idleBTimer);
    GetsLong(s, 14, p.idleCTimer);
    GetsLong(s, 18, p.standbyYTimer);
  }

  lemma PowerSingles(p: PowerCondition, s: seq<byte>)
    requires s == PowerBytes(p)
    ensures Get8(s, 0) == p.precedence % 4 * 64 + Flag(p.standbyY, 1)
    ensures Get8(s, 1) == FlagByte(false, false, false, false, p.idleC, p.idleB, p.idleA, p.standbyZ)
    ensures Get8(s, 37) == p.ccfIdle % 4 * 64 + p.ccfStandby % 4 * 16 + p.ccfStopped % 4 * 4
  {
  }

  lemma PairFields(a: nat, b: nat, c: nat)
    requires a < 4 && b < 4 && c < 4
    ensures (a * 64 + b * 16 + c * 4) / 64 % 4 == a
    ensures (a * 64 + b * 16 + c * 4) / 16 % 4 == b
    ensures (a * 64 + b * 16 + c * 4) / 4 % 4 == c
  {
    var x := a * 64 + b * 16 + c * 4;
    assert x / 64 == a && x / 16 == a * 4 + b && x / 4 == a * 16 + b * 4 + c;
  }

  lemma TopPair(a: nat, low: bool)
    requires a < 4
    ensures (a * 64 + Flag(low, 1)) / 64 % 4 == a && Bit0(a * 64 + Flag(low, 1)) == low
  {
  }

  lemma PowerThereAndBack(p: PowerCondition)
    ensures ParsePower(PowerBytes(p), 0) == CutPower(p)
  {
    var s := PowerBytes(p);
    PowerLayout(p);
    PowerLongs(p, s);
    PowerSingles(p, s);
    BitsOfFlags(false, false, false, false, p.idleC, p.idleB, p.idleA, p.standbyZ);
    PairFields(p.ccfIdle % 4, p.ccfStandby % 4, p.ccfStopped % 4);
    TopPair(p.precedence % 4, p.standbyY);
  }

  lemma ExceptionsReads(d: seq<byte>, pos: nat, s: seq<byte>)
    requires Embeds(d, pos, s) && |s| >= 10
    ensures ParseExceptions(d, pos) == ParseExceptions(s, 0)
  {
    EmbeddedReads(d, pos, s, 0);
    EmbeddedReads(d, pos, s, 1);
    EmbeddedReads(d, pos, s, 2);
    EmbeddedReads(d, pos, s, 6);
  }

  function CutExceptions(x: Exceptions): (r: Exceptions)
    ensures NormalExceptions(r)
    ensures r == x <==> NormalExceptions(x)
  {
    x.(mrie := x.mrie % 16, interval := Int32(x.interval % 0x1_0000_0000), reports := Int32(x.reports % 0x1_0000_0000))
  }

  lemma ExceptionsThereAndBack(x: Exceptions)
    ensures ParseExceptions(ExceptionsBytes(x), 0) == CutExceptions(x)
  {
    var s := ExceptionsBytes(x);
    BitsOfFlags(x.perf, false, x.ebf, x.ewasc, x.dexcpt, x.test, x.ebackerr, x.logerr);
    GetsLong(s, 2, x.interval);
    GetsLong(s, 6, x.reports);
  }

  // ----- a page with its header

  predicate CanMarshal(p: Page) {
    match p.body
    case CachingBody(_) => p.code == CACHING
    case PowerBody(_) => p.code == POWER_CONDITION
    case ExceptionsBody(_) => p.code == INFORMATIONAL_EXCEPTIONS
    case Other => false
  }

  function BodyBytes(b: Body): (s: seq<byte>)
    requires b != Other
    ensures 10 <= |s| <= 38
  {
    match b
    case CachingBody(c) => CachingBytes(c)
    case PowerBody(p) => PowerBytes(p)
    case ExceptionsBody(x) => ExceptionsBytes(x)
  }

  function HeadByte(p: Page): byte
    requires CanMarshal(p)
  {
    p.code + Flag(p.ps != 0, 128) + Flag(p.spf != 0, 64)
  }

  // With a subpage the longer header is written over the first fields.
  function PageBytes(p: Page): (s: seq<byte>)
    requires CanMarshal(p)
    ensures |s| == |BodyBytes(p.body)| + 2
  {
    var b := BodyBytes(p.body);
    if p.spf == 0 then [HeadByte(p), |b|] + b
    else [HeadByte(p), B0(p.subpage), B1(|b| - 2), B0(|b| - 2)] + b[2..]
  }

  // What comes back of a page without subpage.
  function CutBody(b: Body): Body {
    match b
    case CachingBody(c) => CachingBody(CutCaching(c))
    case PowerBody(p) => PowerBody(CutPower(p))
    case ExceptionsBody(x) => ExceptionsBody(CutExceptions(x))
    case Other => Other
  }

  function Back(p: Page): Page
    requires CanMarshal(p)
  {
    Page(if p.ps != 0 then 0x80 else 0, 0, p.code, 0, |BodyBytes(p.body)|, CutBody(p.body))
  }

  predicate NormalBody(b: Body) {
    match b
    case CachingBody(c) => NormalCaching(c)
    case PowerBody(p) => NormalPower(p)
    case ExceptionsBody(x) => NormalExceptions(x)
    case Other => true
  }

  // The page says of itself what a reply would say.
  predicate NormalPage(p: Page)
    requires CanMarshal(p)
  {
    (p.ps == 0 || p.ps == 0x80) && p.subpage == 0 && p.len == |BodyBytes(p.body)| && NormalBody(p.body)
  }

  lemma BackIsSame(p: Page)
    requires CanMarshal(p) && p.spf == 0
    ensures Back(p) == p <==> NormalPage(p)
  {
  }

  lemma HeadBits(p: Page)
    requires CanMarshal(p) && p.spf == 0
    ensures Bit7(HeadByte(p)) == (p.ps != 0) && !Bit6(HeadByte(p)) && HeadByte(p) % 64 == p.code
  {
  }

  lemma BodyThereAndBack(b: Body, code: int, d: seq<byte>, pos: nat)
    requires b != Other && CanMarshal(Page(0, 0, code, 0, 0, b)) && Embeds(d, pos, BodyBytes(b))
    ensures ParseBody(d, code, pos) == CutBody(b)
  {
    match b
    case CachingBody(c) =>
      CachingReads(d, pos, CachingBytes(c));
      CachingThereAndBack(c);
    case PowerBody(p) =>
      PowerReads(d, pos, PowerBytes(p));
      PowerThereAndBack(p);
    case ExceptionsBody(x) =>
      ExceptionsReads(d, pos, ExceptionsBytes(x));
      ExceptionsThereAndBack(x);
  }

  lemma PageThereAndBack(p: Page, d: seq<byte>, pos: nat)
    requires CanMarshal(p) && p.spf == 0 && Embeds(d, pos, PageBytes(p))
    ensures PageAt(d, pos) == Back(p)
    ensures BodyPos(d, pos) + BodyLen(d, pos) == pos + |PageBytes(p)|
  {
    var s, b := PageBytes(p), BodyBytes(p.body);
    EmbeddedReads(d, pos, s, 0);
    EmbeddedReads(d, pos, s, 1);
    HeadBits(p);
    forall k | 0 <= k < |b| ensures d[pos + 2 + k] == b[k] {
      assert d[pos + (k + 2)] == s[k + 2];
    }
    BodyThereAndBack(p.body, p.code, d, pos + 2);
  }

  // ----- any number of pages

  predicate AllMarshal(ps: seq<Page>) {
    forall i :: 0 <= i < |ps| ==> CanMarshal(ps[i]) && ps[i].spf == 0
  }

  function PagesBytes(ps: seq<Page>): seq<byte>
    requires AllMarshal(ps)
  {
    if ps == [] then [] else PageBytes(ps[0]) + PagesBytes(ps[1..])
  }

  // In the order of the list that the walk builds: the last page first.
  function AllBack(ps: seq<Page>): seq<Page>
    requires AllMarshal(ps)
  {
    if ps == [] then [] else AllBack(ps[1..]) + [Back(ps[0])]
  }

  lemma EmbedsMiddle(pre: seq<byte>, s: seq<byte>, post: seq<byte>)
    ensures Embeds(pre + (s + post), |pre|, s)
  {
  }

  lemma FirstPage(pre: seq<byte>, p: Page, s: seq<byte>, rest: seq<byte>, found: seq<Page>)
    requires CanMarshal(p) && p.spf == 0 && s == PageBytes(p)
    ensures Walk(pre + (s + rest), |pre|, found) == Walk((pre + s) + rest, |pre + s|, [Back(p)] + found)
  {
    EmbedsMiddle(pre, s, rest);
    PageThereAndBack(p, pre + (s + rest), |pre|);
    Regroup(pre, s, rest);
  }

  // Marshalled pages, whatever header stands before them, are found again, each with its own fields.
  lemma {:induction false} PagesThereAndBack(pre: seq<byte>, ps: seq<Page>, found: seq<Page>)
    requires AllMarshal(ps)
    ensures Walk(pre + PagesBytes(ps), |pre|, found) == AllBack(ps) + found
    decreases |ps|
  {
    if ps == [] {
      assert AllBack(ps) + found == found;
    } else {
      var s := PageBytes(ps[0]);
      FirstPage(pre, ps[0], s, PagesBytes(ps[1..]), found);
      PagesThereAndBack(pre + s, ps[1..], [Back(ps[0])] + found);
      Regroup(AllBack(ps[1..]), [Back(ps[0])], found);
    }
  }

  // ----- the source's functions

  lemma SinglePage(pre: seq<byte>, p: Page)
    requires CanMarshal(p) && p.spf == 0
    ensures Walk(pre + PageBytes(p), |pre|, []) == [Back(p)]
  {
    var s := PageBytes(p);
    FirstPage(pre, p, s, [], []);
    assert s + [] == s && pre + s + [] == pre + s && [Back(p)] + [] == [Back(p)];
  }

  lemma ZeroHeader(hdr: nat, s: seq<byte>)
    requires |s| >= 10 && (hdr == 4 || hdr == 8)
    ensures var d := Zeros(hdr) + s;
            && Get16(d, 0) == 0 && (forall k :: 0 <= k < hdr ==> Get8(d, k) == 0) && (hdr == 8 ==> Get16(d, 6) == 0)
  {
  }

  lemma UnderZeroHeader(d: seq<byte>, six: bool, hdr: nat)
    requires hdr == (if six then 4 else 8) && |d| > hdr && Get16(d, 0) == 0 && (hdr == 8 ==> Get16(d, 6) == 0)
    requires forall k :: 0 <= k < hdr ==> Get8(d, k) == 0
    ensures Unmarshal(d, six) == Some(ModeSense(0, 0, 0, 0, 0, Walk(d, hdr, [])))
  {
  }

  // One marshalled page under a zero header, read back as a reply of the same kind.
  lemma MarshalThenUnmarshal(p: Page, six: bool, hdr: nat)
    requires CanMarshal(p) && p.spf == 0 && hdr == if six then 4 else 8
    ensures Unmarshal(Zeros(hdr) + PageBytes(p), six) == Some(ModeSense(0, 0, 0, 0, 0, [Back(p)]))
  {
    ZeroHeader(hdr, PageBytes(p));
    UnderZeroHeader(Zeros(hdr) + PageBytes(p), six, hdr);
    SinglePage(Zeros(hdr), p);
  }

  // ----- block descriptors in front of the pages

  // A reply without fault in its header: it announces no more data than there is, and n bytes of block descriptors that
  // stand between the header and the pages.
  predicate Prefix(pre: seq<byte>, n: nat, six: bool) {
    if six then |pre| == 4 + n && Get8(pre, 0) < |pre| && Get8(pre, 3) == n
    else |pre| == 8 + n && Get16(pre, 0) < |pre| && Get16(pre, 6) == n
  }

  // The pages that were put into the reply are the ones it is taken apart into.
  predicate PagesFound(pre: seq<byte>, ps: seq<Page>, six: bool)
    requires AllMarshal(ps)
  {
    var r := Unmarshal(pre + PagesBytes(ps), six);
    r.Some? && r.value.pages == AllBack(ps)
  }

  lemma HeaderStays(pre: seq<byte>, s: seq<byte>)
    requires |pre| >= 4
    ensures Get8(pre + s, 0) == Get8(pre, 0) && Get8(pre + s, 3) == Get8(pre, 3) && Get16(pre + s, 0) == Get16(pre, 0)
    ensures |pre| >= 8 ==> Get16(pre + s, 6) == Get16(pre, 6)
  {
  }

  // Where the walk begins.
  function StartOfWalk(n: nat, six: bool): nat {
    if six then 4 + n else 8 + n % 0x100
  }

  lemma PagesOfReply(pre: seq<byte>, n: nat, six: bool, ps: seq<Page>)
    requires Prefix(pre, n, six) && AllMarshal(ps)
    ensures var d := pre + PagesBytes(ps);
            Unmarshal(d, six).Some? && Unmarshal(d, six).value.pages == Walk(d, StartOfWalk(n, six), [])
  {
    HeaderStays(pre, PagesBytes(ps));
  }

  lemma {:induction false} WalkKeepsFound(d: seq<byte>, pos: nat, found: seq<Page>)
    ensures |Walk(d, pos, found)| >= |found|
    decreases |d| - pos
  {
    if pos < |d| {
      WalkKeepsFound(d, BodyPos(d, pos) + BodyLen(d, pos), [PageAt(d, pos)] + found);
    }
  }

  lemma WalkFindsSomething(d: seq<byte>, pos: nat)
    requires pos < |d|
    ensures Walk(d, pos, []) != []
  {
    WalkKeepsFound(d, BodyPos(d, pos) + BodyLen(d, pos), [PageAt(d, pos)] + []);
  }

  // The pages behind n bytes of block descriptors are found, whatever pages they are, if and only if the length fits
  // the eight bits in which it is kept. A 6-byte header has no more than eight bits for it.
  lemma PagesFoundBehindDescriptors(pre: seq<byte>, n: nat, six: bool)
    requires Prefix(pre, n, six)
    ensures (forall ps :: AllMarshal(ps) ==> PagesFound(pre, ps, six)) <==> n < 0x100
  {
    if n < 0x100 {
      forall ps | AllMarshal(ps) ensures PagesFound(pre, ps, six) {
        ThesePagesFound(pre, n, six, ps);
      }
    } else {
      NothingFoundWrongly(pre, n);
    }
  }

  lemma ThesePagesFound(pre: seq<byte>, n: nat, six: bool, ps: seq<Page>)
    requires Prefix(pre, n, six) && n < 0x100 && AllMarshal(ps)
    ensures PagesFound(pre, ps, six)
  {
    StartsBehind(pre, n, six);
    PagesOfReply(pre, n, six, ps);
    WalkFromThere(pre, ps);
  }

  lemma StartsBehind(pre: seq<byte>, n: nat, six: bool)
    requires Prefix(pre, n, six) && n < 0x100
    ensures StartOfWalk(n, six) == |pre|
  {
  }

  lemma WalkFromThere(pre: seq<byte>, ps: seq<Page>)
    requires AllMarshal(ps)
    ensures Walk(pre + PagesBytes(ps), |pre|, []) == AllBack(ps)
  {
    PagesThereAndBack(pre, ps, []);
    assert AllBack(ps) + [] == AllBack(ps);
  }

  // With longer block descriptors the decoder finds pages even in a reply that has none: it reads descriptors as pages.
  lemma NothingFoundWrongly(pre: seq<byte>, n: nat)
    requires Prefix(pre, n, false) && n >= 0x100
    ensures AllMarshal([]) && !PagesFound(pre, [], false)
  {
    PagesOfReply(pre, n, false, []);
    assert pre + PagesBytes([]) == pre;
    WalkFindsSomething(pre, StartOfWalk(n, false));
  }

  // Such a reply: 256 bytes of block descriptors, all zero, and no page. The walk begins right behind the header.
  lemma DescriptorsWitness()
    ensures var pre := [0, 0, 0, 0, 0, 0, 1, 0] + Zeros(256);
            && Prefix(pre, 256, false) && !PagesFound(pre, [], false)
            && Unmarshal(pre, false).Some? && Unmarshal(pre, false).value.pages != []
            && Unmarshal(pre, false).value.blockDescriptorLength == 0
  {
    var pre := [0, 0, 0, 0, 0, 0, 1, 0] + Zeros(256);
    assert pre[0] == 0 && pre[1] == 0 && pre[6] == 1 && pre[7] == 0;
    NothingFoundWrongly(pre, 256);
    WalkFindsSomething(pre, 8);
  }

  // ----- pages with a subpage

  // A normal page of some kind with one flag set that the longer header is written over.
  function Witness(code: int, spf: int): Page
    requires code == CACHING || code == POWER_CONDITION || code == INFORMATIONAL_EXCEPTIONS
  {
    var body :=
      if code == CACHING then
        CachingBody(Caching(false, false, false, false, false, true, false, false, 0, 0, 0, 0, 0, 0, false, false,
                            false, false, 0, 0))
      else if code == POWER_CONDITION then
        PowerBody(PowerCondition(0, false, false, false, true, false, 0, 0, 0, 0, 0, 0, 0, 0))
      else ExceptionsBody(Exceptions(false, false, false, false, false, false, true, 0, 0, 0));
    Page(0, spf, code, 0, 0, body)
  }

  predicate BodyComesBack(p: Page)
    requires CanMarshal(p)
  {
    PageAt(PageBytes(p), 0).body == p.body
  }

  // Behind the longer header the third byte of the fields comes first.
  lemma ShiftedBytes(p: Page)
    requires CanMarshal(p) && p.spf != 0
    ensures var s, b := PageBytes(p), BodyBytes(p.body);
            Bit6(Get8(s, 0)) && Get8(s, 0) % 64 == p.code && Get8(s, 4) == b[2] && Get8(s, 5) == b[3]
  {
    var s, b := PageBytes(p), BodyBytes(p.body);
    assert s[4] == b[2..][0] && s[5] == b[2..][1];
    HeadBitsOf(p.code, p.ps != 0);
  }

  lemma ShiftedReads(p: Page, k: nat)
    requires CanMarshal(p) && p.spf != 0
    ensures var s, b := PageBytes(p), BodyBytes(p.body);
            Get8(s, 4 + k) == Get8(b, 2 + k) && Get16(s, 4 + k) == Get16(b, 2 + k) && Get32(s, 4 + k) == Get32(b, 2 + k)
  {
    var s, b := PageBytes(p), BodyBytes(p.body);
    forall j | 4 <= j < |s| ensures s[j] == b[j - 2] {
      assert s[j] == b[2..][j - 4];
    }
  }

  lemma CachingShifted(p: Page)
    requires CanMarshal(p) && p.spf != 0
    ensures ParseCaching(PageBytes(p), 4) == ParseCaching(BodyBytes(p.body), 2)
  {
    ShiftedReads(p, 0);
    ShiftedReads(p, 1);
    ShiftedReads(p, 2);
    ShiftedReads(p, 4);
    ShiftedReads(p, 6);
    ShiftedReads(p, 8);
    ShiftedReads(p, 10);
    ShiftedReads(p, 11);
    ShiftedReads(p, 12);
  }

  lemma PowerShifted(p: Page)
    requires CanMarshal(p) && p.spf != 0
    ensures ParsePower(PageBytes(p), 4) == ParsePower(BodyBytes(p.body), 2)
  {
    ShiftedReads(p, 0);
    ShiftedReads(p, 1);
    ShiftedReads(p, 2);
    ShiftedReads(p, 6);
    ShiftedReads(p, 10);
    ShiftedReads(p, 14);
    ShiftedReads(p, 18);
    ShiftedReads(p, 37);
  }

  lemma ExceptionsShifted(p: Page)
    requires CanMarshal(p) && p.spf != 0
    ensures ParseExceptions(PageBytes(p), 4) == ParseExceptions(BodyBytes(p.body), 2)
  {
    ShiftedReads(p, 0);
    ShiftedReads(p, 1);
    ShiftedReads(p, 2);
    ShiftedReads(p, 6);
  }

  // For a single page: without a subpage its fields come back if and only if they fit their bits; with one, if and only
  // if its bytes, read two bytes further on, happen to give the same fields.
  lemma OnePageComesBack(p: Page)
    requires CanMarshal(p)
    ensures BodyComesBack(p) <==>
            if p.spf == 0 then NormalBody(p.body) else ParseBody(BodyBytes(p.body), p.code, 2) == p.body
  {
    if p.spf == 0 {
      EmbedsSelf(PageBytes(p));
      PageThereAndBack(p, PageBytes(p), 0);
    } else {
      ShiftedBytes(p);
      match p.body
      case CachingBody(_) => CachingShifted(p);
      case PowerBody(_) => PowerShifted(p);
      case ExceptionsBody(_) => ExceptionsShifted(p);
      case Other => assert false;
    }
  }

  lemma HeadBitsOf(code: nat, ps: bool)
    requires code < 64
    ensures (code + Flag(ps, 128) + 64) / 64 % 2 == 1 && (code + Flag(ps, 128) + 64) % 64 == code
  {
  }

  lemma CachingWitness(p: Page, c: Caching)
    requires p.spf != 0 && p.code == CACHING && p.body == CachingBody(c) && c.wce && c.disablePrefetch == 0
    ensures !BodyComesBack(p)
  {
    ShiftedBytes(p);
    assert CachingBytes(c)[2] == 0;
  }

  lemma PowerWitness(p: Page, c: PowerCondition)
    requires p.spf != 0 && p.code == POWER_CONDITION && p.body == PowerBody(c) && c.idleA && c.idleATimer == 0
    ensures !BodyComesBack(p)
  {
    ShiftedBytes(p);
    assert PowerBytes(c)[3] == 0;
  }

  lemma ExceptionsWitness(p: Page, x: Exceptions)
    requires p.spf != 0 && p.code == INFORMATIONAL_EXCEPTIONS && p.body == ExceptionsBody(x) && x.logerr
    requires x.interval == 0
    ensures !BodyComesBack(p)
  {
    ShiftedBytes(p);
    assert ExceptionsBytes(x)[2] == 0;
  }

  lemma WitnessFails(code: int, spf: int)
    requires spf != 0 && (code == CACHING || code == POWER_CONDITION || code == INFORMATIONAL_EXCEPTIONS)
    ensures CanMarshal(Witness(code, spf)) && NormalBody(Witness(code, spf).body) && !BodyComesBack(Witness(code, spf))
  {
    var p := Witness(code, spf);
    match p.body
    case CachingBody(c) => CachingWitness(p, c);
    case PowerBody(c) => PowerWitness(p, c);
    case ExceptionsBody(x) => ExceptionsWitness(p, x);
    case Other => assert false;
  }

  // All normal fields of a kind of page come back exactly if it is marshalled without a subpage.
  lemma FieldsComeBackWithoutSubpage(code: int, spf: int)
    requires code == CACHING || code == POWER_CONDITION || code == INFORMATIONAL_EXCEPTIONS
    ensures (forall p: Page :: CanMarshal(p) && p.code == code && p.spf == spf && NormalBody(p.body) ==>
             BodyComesBack(p))
            <==> spf == 0
  {
    if spf == 0 {
      forall p: Page | CanMarshal(p) && p.code == code && p.spf == spf && NormalBody(p.body) ensures BodyComesBack(p) {
        EmbedsSelf(PageBytes(p));
        PageThereAndBack(p, PageBytes(p), 0);
      }
    } else {
      WitnessFails(code, spf);
    }
  }

  lemma EmbedsSelf(s: seq<byte>)
    ensures Embeds(s, 0, s)
  {
  }

  // ----- the source's functions, in place

  // The codes that can be marshalled; the control page and the disconnect-reconnect page are not part of this model.
  const MARSHALLED := {CACHING, POWER_CONDITION, INFORMATIONAL_EXCEPTIONS, CONTROL, DISCONNECT_RECONNECT}

  predicate PageInModel(p: Page) {
    CanMarshal(p) || (p.body == Other && p.code !in MARSHALLED)
  }

  // if (flag) d[at] |= mask
  method Raise(d: array<byte>, at: nat, flag: bool, mask: byte, ghost k: nat)
    requires at < d.Length && 0 < mask && IsPower(2 * mask) && d[at] == k * (2 * mask) && d[at] + mask < 256
    modifies d
    ensures d[..] == old(d[..])[at := old(d[at]) + Flag(flag, mask)]
  {
    if flag {
      OrAdds(d[at], k, mask, 2 * mask);
      d[at] := Or(d[at], mask);
    }
  }

  // The flags of one byte, highest first.
  method RaiseAll(d: array<byte>, at: nat, b7: bool, b6: bool, b5: bool, b4: bool, b3: bool, b2: bool, b1: bool,
                  b0: bool)
    requires at < d.Length && d[at] == 0
    modifies d
    ensures d[..] == old(d[..])[at := FlagByte(b7, b6, b5, b4, b3, b2, b1, b0)]
  {
    RaiseHigh(d, at, b7, b6, b5, b4);
    RaiseLow(d, at, b3, b2, b1, b0, Flag(b7, 8) + Flag(b6, 4) + Flag(b5, 2) + Flag(b4, 1));
  }

  method RaiseHigh(d: array<byte>, at: nat, b7: bool, b6: bool, b5: bool, b4: bool)
    requires at < d.Length && d[at] == 0
    modifies d
    ensures d[..] == old(d[..])[at := Flag(b7, 128) + Flag(b6, 64) + Flag(b5, 32) + Flag(b4, 16)]
  {
    PowersOfTwo();
    Raise(d, at, b7, 128, 0);
    Raise(d, at, b6, 64, Flag(b7, 1));
    Raise(d, at, b5, 32, Flag(b7, 2) + Flag(b6, 1));
    Raise(d, at, b4, 16, Flag(b7, 4) + Flag(b6, 2) + Flag(b5, 1));
  }

  method RaiseLow(d: array<byte>, at: nat, b3: bool, b2: bool, b1: bool, b0: bool, ghost h: nat)
    requires at < d.Length && d[at] == 16 * h
    modifies d
    ensures d[..] == old(d[..])[at := 16 * h + Flag(b3, 8) + Flag(b2, 4) + Flag(b1, 2) + Flag(b0, 1)]
  {
    PowersOfTwo();
    Raise(d, at, b3, 8, h);
    Raise(d, at, b2, 4, 2 * h + Flag(b3, 1));
    Raise(d, at, b1, 2, 4 * h + Flag(b3, 2) + Flag(b2, 1));
    Raise(d, at, b0, 1, 8 * h + Flag(b3, 4) + Flag(b2, 2) + Flag(b1, 1));
  }

  lemma PowersOfTwo()
    ensures IsPower(2) && IsPower(4) && IsPower(8) && IsPower(16) && IsPower(32) && IsPower(64) && IsPower(128)
    ensures IsPower(256)
  {
    assert IsPower(1);
    assert IsPower(2);
    assert IsPower(4);
    assert IsPower(8);
    assert IsPower(16);
    assert IsPower(32);
    assert IsPower(64);
    assert IsPower(128);
  }

  // d[at] |= v, where the bits of v are free
  method AddField(d: array<byte>, at: nat, v: byte, ghost k: nat, ghost p: nat)
    requires at < d.Length && IsPower(p) && d[at] == k * p && v < p && d[at] + v < 256
    modifies d
    ensures d[..] == old(d[..])[at := old(d[at]) + v]
  {
    OrAdds(d[at], k, v, p);
    d[at] := Or(d[at], v);
  }

  // The first k of the bytes t stand behind the header and page header; everything else is still zero.
  ghost predicate Written(d: array<byte>, base: nat, t: seq<byte>, k: nat)
    reads d
  {
    && k <= |t| && d.Length == base + |t|
    && (forall i :: 0 <= i < base ==> d[i] == 0) && (forall i :: base + k <= i < d.Length ==> d[i] == 0)
    && (forall i :: 0 <= i < k ==> d[base + i] == t[i])
  }

  method PutFlags(d: array<byte>, base: nat, ghost t: seq<byte>, k: nat, b7: bool, b6: bool, b5: bool, b4: bool,
                  b3: bool, b2: bool, b1: bool, b0: bool)
    requires Written(d, base, t, k) && k < |t| && t[k] == FlagByte(b7, b6, b5, b4, b3, b2, b1, b0)
    modifies d
    ensures Written(d, base, t, k + 1)
  {
    RaiseAll(d, base + k, b7, b6, b5, b4, b3, b2, b1, b0);
  }

  // Two fields or-ed into one byte.
  method PutFields(d: array<byte>, base: nat, ghost t: seq<byte>, k: nat, high: nat, low: nat, p: nat)
    requires Written(d, base, t, k) && k < |t| && IsPower(p) && IsPower(256) && low < p && high * p + low < 256
    requires t[k] == high * p + low
    modifies d
    ensures Written(d, base, t, k + 1)
  {
    AddField(d, base + k, high * p, 0, 256);
    AddField(d, base + k, low, high, p);
  }

  method PutByte(d: array<byte>, base: nat, ghost t: seq<byte>, k: nat, v: byte)
    requires Written(d, base, t, k) && k < |t| && t[k] == v
    modifies d
    ensures Written(d, base, t, k + 1)
  {
    d[base + k] := v;
  }

  // scsi_set_uint16, scsi_set_uint32
  method PutUint16(d: array<byte>, base: nat, ghost t: seq<byte>, k: nat, v: int)
    requires Written(d, base, t, k) && k + 2 <= |t| && t[k] == B1(v) && t[k + 1] == B0(v)
    modifies d
    ensures Written(d, base, t, k + 2)
  {
    d[base + k], d[base + k + 1] := B1(v), B0(v);
  }

  method PutUint32(d: array<byte>, base: nat, ghost t: seq<byte>, k: nat, v: int)
    requires Written(d, base, t, k) && LongAt(t, k, v)
    modifies d
    ensures Written(d, base, t, k + 4)
  {
    d[base + k], d[base + k + 1], d[base + k + 2], d[base + k + 3] := B3(v), B2(v), B1(v), B0(v);
  }

  lemma ZerosWritten(d: array<byte>, base: nat, t: seq<byte>, k: nat, n: nat)
    requires Written(d, base, t, k) && k + n <= |t| && forall i :: k <= i < k + n ==> t[i] == 0
    ensures Written(d, base, t, k + n)
  {
  }

  lemma AllWritten(d: array<byte>, base: nat, t: seq<byte>)
    requires Written(d, base, t, |t|)
    ensures d[..] == Zeros(base) + t
  {
    forall i | 0 <= i < d.Length ensures d[i] == (Zeros(base) + t)[i] {
      assert i >= base ==> d[base + (i - base)] == t[i - base];
    }
  }

  predicate WordAt(t: seq<byte>, k: nat, v: int) {
    k + 2 <= |t| && t[k] == B1(v) && t[k + 1] == B0(v)
  }

  // Where the fields lie.
  predicate ExceptionsLaid(x: Exceptions, t: seq<byte>) {
    && |t| == 10 && t[0] == FlagByte(x.perf, false, x.ebf, x.ewasc, x.dexcpt, x.test, x.ebackerr, x.logerr)
    && t[1] == x.mrie % 16 && LongAt(t, 2, x.interval) && LongAt(t, 6, x.reports)
  }

  predicate CachingWordsLaid(c: Caching, t: seq<byte>) {
    && |t| == 18 && WordAt(t, 2, c.disablePrefetch) && WordAt(t, 4, c.minimumPrefetch)
    && WordAt(t, 6, c.maximumPrefetch)
    && WordAt(t, 8, c.prefetchCeiling) && WordAt(t, 12, c.segmentSize)
  }

  predicate CachingRestLaid(c: Caching, t: seq<byte>) {
    && |t| == 18 && t[0] == FlagByte(c.ic, c.abpf, c.cap, c.disc, c.size, c.wce, c.mf, c.rcd)
    && t[1] == c.demandReadRetention % 16 * 16 + c.writeRetention % 16
    && t[10] == FlagByte(c.fsw, c.lbcss, c.dra, false, false, false, false, c.nvDis) && t[11] == B0(c.segments)
    && forall i :: 14 <= i < 18 ==> t[i] == 0
  }

  predicate PowerLongsLaid(p: PowerCondition, t: seq<byte>) {
    && LongAt(t, 2, p.idleATimer) && LongAt(t, 6, p.standbyZTimer) && LongAt(t, 10, p.idleBTimer)
    && LongAt(t, 14, p.idleCTimer) && LongAt(t, 18, p.standbyYTimer)
  }

  predicate PowerRestLaid(p: PowerCondition, t: seq<byte>) {
    && |t| == 38 && t[0] == p.precedence % 4 * 64 + Flag(p.standbyY, 1)
    && t[1] == FlagByte(false, false, false, false, p.idleC, p.idleB, p.idleA, p.standbyZ)
    && t[37] == p.ccfIdle % 4 * 64 + p.ccfStandby % 4 * 16 + p.ccfStopped % 4 * 4
    && forall i :: 22 <= i < 37 ==> t[i] == 0
  }

  lemma ExceptionsLayout(x: Exceptions)
    ensures ExceptionsLaid(x, ExceptionsBytes(x))
  {
  }

  lemma CachingLayout(c: Caching)
    ensures CachingWordsLaid(c, CachingBytes(c))
  {
  }

  lemma CachingRest(c: Caching)
    ensures CachingRestLaid(c, CachingBytes(c))
  {
  }

  lemma PowerRest(p: PowerCondition)
    ensures PowerRestLaid(p, PowerBytes(p))
  {
  }

  method MarshalExceptions(x: Exceptions, hdr: nat) returns (data: array<byte>)
    ensures fresh(data) && data[..] == Zeros(hdr + 2) + ExceptionsBytes(x)
  {
    data := new byte[12 + hdr](_ => 0);
    ExceptionsLayout(x);
    FillExceptions(x, data, hdr + 2, ExceptionsBytes(x));
    AllWritten(data, hdr + 2, ExceptionsBytes(x));
  }

  method FillExceptions(x: Exceptions, d: array<byte>, base: nat, ghost t: seq<byte>)
    requires Written(d, base, t, 0) && ExceptionsLaid(x, t)
    modifies d
    ensures Written(d, base, t, 10)
  {
    PowersOfTwo();
    PutFlags(d, base, t, 0, x.perf, false, x.ebf, x.ewasc, x.dexcpt, x.test, x.ebackerr, x.logerr);
    PutFields(d, base, t, 1, 0, x.mrie % 16, 16);
    PutUint32(d, base, t, 2, x.interval);
    PutUint32(d, base, t, 6, x.reports);
  }

  method MarshalCaching(c: Caching, hdr: nat) returns (data: array<byte>)
    ensures fresh(data) && data[..] == Zeros(hdr + 2) + CachingBytes(c)
  {
    data := new byte[20 + hdr](_ => 0);
    CachingLayout(c);
    CachingRest(c);
    FillCaching(c, data, hdr + 2, CachingBytes(c));
    AllWritten(data, hdr + 2, CachingBytes(c));
  }

  method FillCaching(c: Caching, d: array<byte>, base: nat, ghost t: seq<byte>)
    requires Written(d, base, t, 0) && CachingWordsLaid(c, t) && CachingRestLaid(c, t)
    modifies d
    ensures Written(d, base, t, 18)
  {
    PowersOfTwo();
    PutFlags(d, base, t, 0, c.ic, c.abpf, c.cap, c.disc, c.size, c.wce, c.mf, c.rcd);
    PutFields(d, base, t, 1, c.demandReadRetention % 16, c.writeRetention % 16, 16);
    PutUint16(d, base, t, 2, c.disablePrefetch);
    PutUint16(d, base, t, 4, c.minimumPrefetch);
    PutUint16(d, base, t, 6, c.maximumPrefetch);
    PutUint16(d, base, t, 8, c.prefetchCeiling);
    PutFlags(d, base, t, 10, c.fsw, c.lbcss, c.dra, false, false, false, false, c.nvDis);
    PutByte(d, base, t, 11, B0(c.segments));
    PutUint16(d, base, t, 12, c.segmentSize);
    ZerosWritten(d, base, t, 14, 4);
  }

  method MarshalPower(p: PowerCondition, hdr: nat) returns (data: array<byte>)
    ensures fresh(data) && data[..] == Zeros(hdr + 2) + PowerBytes(p)
  {
    data := new byte[40 + hdr](_ => 0);
    PowerLayout(p);
    PowerRest(p);
    FillPower(p, data, hdr + 2, PowerBytes(p));
    AllWritten(data, hdr + 2, PowerBytes(p));
  }

  method FillPower(p: PowerCondition, d: array<byte>, base: nat, ghost t: seq<byte>)
    requires Written(d, base, t, 0) && PowerLongsLaid(p, t) && PowerRestLaid(p, t)
    modifies d
    ensures Written(d, base, t, 38)
  {
    PowersOfTwo();
    PutFields(d, base, t, 0, p.precedence % 4, Flag(p.standbyY, 1), 64);
    PutFlags(d, base, t, 1, false, false, false, false, p.idleC, p.idleB, p.idleA, p.standbyZ);
    PutUint32(d, base, t, 2, p.idleATimer);
    PutUint32(d, base, t, 6, p.standbyZTimer);
    PutUint32(d, base, t, 10, p.idleBTimer);
    PutUint32(d, base, t, 14, p.idleCTimer);
    PutUint32(d, base, t, 18, p.standbyYTimer);
    ZerosWritten(d, base, t, 22, 15);
    PutCcf(d, base, t, 37, p.ccfIdle % 4, p.ccfStandby % 4, p.ccfStopped % 4);
  }

  // The three fields of the last byte.
  method PutCcf(d: array<byte>, base: nat, ghost t: seq<byte>, k: nat, a: nat, b: nat, c: nat)
    requires Written(d, base, t, k) && k < |t| && a < 4 && b < 4 && c < 4 && t[k] == a * 64 + b * 16 + c * 4
    modifies d
    ensures Written(d, base, t, k + 1)
  {
    PowersOfTwo();
    AddField(d, base + k, a * 64, 0, 256);
    AddField(d, base + k, b * 16, a, 64);
    AddField(d, base + k, c * 4, a * 4 + b, 16);
  }

  // scsi_modesense_dataout_marshall: nothing for a page it does not know.
  method Marshal(p: Page, six: bool) returns (data: array?<byte>)
    requires PageInModel(p)
    ensures data == null <==> p.body == Other
    ensures data != null ==> fresh(data) && data[..] == Zeros(if six then 4 else 8) + PageBytes(p)
  {
    var hdr := if six then 4 else 8;
    match p.body {
      case CachingBody(c) => data := MarshalCaching(c, hdr);
      case PowerBody(w) => data := MarshalPower(w, hdr);
      case ExceptionsBody(x) => data := MarshalExceptions(x, hdr);
      case Other => return null;
    }
    PutPageHeader(p, data, hdr, BodyBytes(p.body));
  }

  // The header of the page, in front of its fields or over the first of them.
  method PutPageHeader(p: Page, data: array<byte>, hdr: nat, ghost b: seq<byte>)
    requires CanMarshal(p) && b == BodyBytes(p.body) && data[..] == Zeros(hdr + 2) + b
    modifies data
    ensures data[..] == Zeros(hdr) + PageBytes(p)
  {
    BehindHeader(data[..], hdr, b);
    PutHeadByte(p, data, hdr);
    if p.spf != 0 {
      PutLongHeader(p, data, hdr, b);
    } else {
      PutShortHeader(p, data, hdr, b);
    }
  }

  // The first byte of the page header stands; the fields begin two bytes behind it.
  ghost predicate HeadStands(p: Page, d: seq<byte>, hdr: nat, b: seq<byte>)
    requires CanMarshal(p)
  {
    && b == BodyBytes(p.body) && |d| == hdr + 2 + |b| && (forall i :: 0 <= i < hdr ==> d[i] == 0)
    && d[hdr] == HeadByte(p)
    && forall i :: 0 <= i < |b| ==> d[hdr + 2 + i] == b[i]
  }

  method PutLongHeader(p: Page, data: array<byte>, hdr: nat, ghost b: seq<byte>)
    requires CanMarshal(p) && p.spf != 0 && HeadStands(p, data[..], hdr, b)
    modifies data
    ensures data[..] == Zeros(hdr) + PageBytes(p)
  {
    data[hdr + 1] := B0(p.subpage);
    data[hdr + 2], data[hdr + 3] := B1(data.Length - hdr - 4), B0(data.Length - hdr - 4);
    LongPage(p, data[..], hdr, b);
  }

  method PutShortHeader(p: Page, data: array<byte>, hdr: nat, ghost b: seq<byte>)
    requires CanMarshal(p) && p.spf == 0 && HeadStands(p, data[..], hdr, b)
    modifies data
    ensures data[..] == Zeros(hdr) + PageBytes(p)
  {
    data[hdr + 1] := (data.Length - hdr - 2) % 256;
    ShortPage(p, data[..], hdr, b);
  }

  lemma BehindHeader(d: seq<byte>, hdr: nat, b: seq<byte>)
    requires d == Zeros(hdr + 2) + b
    ensures |d| == hdr + 2 + |b| && (forall i :: 0 <= i < hdr + 2 ==> d[i] == 0)
    ensures forall i :: 0 <= i < |b| ==> d[hdr + 2 + i] == b[i]
  {
  }

  method PutHeadByte(p: Page, d: array<byte>, hdr: nat)
    requires CanMarshal(p) && hdr < d.Length && d[hdr] == 0
    modifies d
    ensures d[..] == old(d[..])[hdr := HeadByte(p)]
  {
    PowersOfTwo();
    d[hdr] := p.code % 64;
    SetBit(d, hdr, p.ps != 0, 0x80, 0, p.code);
    SetBit(d, hdr, p.spf != 0, 0x40, Flag(p.ps != 0, 1), p.code);
  }

  // if (flag) d[at] |= mask, where the bit is not set yet
  method SetBit(d: array<byte>, at: nat, flag: bool, mask: byte, ghost k: nat, ghost r: nat)
    requires at < d.Length && IsPower(mask) && d[at] == 2 * k * mask + r && r < mask && d[at] + mask < 256
    modifies d
    ensures d[..] == old(d[..])[at := old(d[at]) + Flag(flag, mask)]
  {
    if flag {
      OrAddsBit(d[at], k, r, mask);
      d[at] := Or(d[at], mask);
    }
  }

  lemma ShortPage(p: Page, d: seq<byte>, hdr: nat, b: seq<byte>)
    requires CanMarshal(p) && b == BodyBytes(p.body) && |d| == hdr + 2 + |b| && (forall i :: 0 <= i < hdr ==> d[i] == 0)
    requires p.spf == 0 && d[hdr] == HeadByte(p) && d[hdr + 1] == |b|
    requires forall i :: 0 <= i < |b| ==> d[hdr + 2 + i] == b[i]
    ensures d == Zeros(hdr) + PageBytes(p)
  {
    var t := Zeros(hdr) + PageBytes(p);
    forall i | 0 <= i < |d| ensures d[i] == t[i] {
      if i >= hdr + 2 {
        assert d[hdr + 2 + (i - hdr - 2)] == b[i - hdr - 2];
      }
    }
  }

  lemma LongPage(p: Page, d: seq<byte>, hdr: nat, b: seq<byte>)
    requires CanMarshal(p) && b == BodyBytes(p.body) && |d| == hdr + 2 + |b| && (forall i :: 0 <= i < hdr ==> d[i] == 0)
    requires p.spf != 0 && d[hdr] == HeadByte(p)
    requires d[hdr + 1] == B0(p.subpage) && d[hdr + 2] == B1(|b| - 2) && d[hdr + 3] == B0(|b| - 2)
    requires forall i :: 2 <= i < |b| ==> d[hdr + 2 + i] == b[i]
    ensures d == Zeros(hdr) + PageBytes(p)
  {
    var head := [HeadByte(p), B0(p.subpage), B1(|b| - 2), B0(|b| - 2)];
    LongTail(d, hdr, b);
    assert d[hdr..hdr + 4] == head;
    assert d == d[..hdr] + (d[hdr..hdr + 4] + d[hdr + 4..]);
    assert d[..hdr] == Zeros(hdr);
  }

  lemma LongTail(d: seq<byte>, hdr: nat, b: seq<byte>)
    requires |d| == hdr + 2 + |b| && |b| >= 2 && forall i :: 2 <= i < |b| ==> d[hdr + 2 + i] == b[i]
    ensures d[hdr + 4..] == b[2..]
  {
    forall i | 0 <= i < |b| - 2 ensures d[hdr + 4..][i] == b[2..][i] {
      assert d[hdr + 2 + (i + 2)] == b[i + 2];
    }
  }

  // One turn of the walk: the new page goes in front.
  method NextPage(s: seq<byte>, pos: nat, pages: seq<Page>) returns (pos': nat, pages': seq<Page>)
    requires pos < |s|
    ensures pos' > pos && Walk(s, pos', pages') == Walk(s, pos, pages)
  {
    var page := PageAt(s, pos);
    pos' := BodyPos(s, pos) + page.len;
    pages' := [page] + pages;
  }

  // The loop over the pages.
  method WalkPages(s: seq<byte>, start: nat) returns (pages: seq<Page>)
    ensures pages == Walk(s, start, [])
  {
    pages := [];
    var pos := start;
    while pos < |s|
      invariant Walk(s, pos, pages) == Walk(s, start, [])
      decreases |s| - pos
    {
      pos, pages := NextPage(s, pos, pages);
    }
  }

  // scsi_modesense_datain_unmarshall
  method UnmarshalReply(d: array<byte>, six: bool) returns (r: Option<ModeSense>)
    ensures r == Unmarshal(d[..], six)
  {
    var hdr := if six then 4 else 8;
    if d.Length < hdr {
      return None;
    }
    var s := d[..];
    var length := if six then Get8(s, 0) else Get16(s, 0);
    var descriptors := if six then Get8(s, 3) else Get16(s, 6) % 0x100;
    if length + 1 > d.Length {
      return None;
    }
    var pages := WalkPages(s, hdr + descriptors);
    return Some(ModeSense(length, Get8(s, if six then 1 else 2), Get8(s, if six then 2 else 3),
                          if six then 0 else Get8(s, 4) % 2, descriptors, pages));
  }
}
