/** Cache-push messages in their two framings: camd35_cacheex_push_out and _push_in, and
    cc_cacheex_push_out and _push_in (oscam/module-camd35-cacheex.c:23-26, 1134-1358, 1437-1476,
    oscam/module-cccam-cacheex.c:1116-1226, 1260-1425, 1499-1511). */
module PushWire {
  import opened Bytes
  import opened CardWire

  type Digest = d: bytes | |d| == 16 witness seq(16, _ => 0)

  const E_FOUND := 0
  const E_NOTFOUND := 4
  const E_UNHANDLED := 100

  /** The fields of an ECM_REQUEST that a push carries. */
  datatype Request = Request(
    rc: int, srvid: Short, caid: Short, prid: Word, ecm0: byte, md5: Digest, cspHash: Word, cw: ControlWord,
    cycleTime: byte, nextCycle: byte, nodes: seq<NodeId>)

  datatype Framing = Camd35 | Cccam

  /** CSP_HASH_SWAP */
  function SwapBytes(x: Word): Word {
    x % 256 * 0x100_0000 + x / 256 % 256 * 0x1_0000 + x / 0x1_0000 % 256 * 256 + x / 0x100_0000
  }

  function Parity(b: byte): byte {
    if b != 0x80 && b != 0x81 then 0 else b
  }

  /** The byte for the cycle time, with its highest bit saying which half is next */
  function CycleByte(cycleTime: byte, nextCycle: byte): byte {
    if cycleTime != 0 && nextCycle < 2 then
      if nextCycle == 1 && cycleTime < 128 then cycleTime + 128 else cycleTime
    else 0
  }

  function ReadCycle(b: byte): (byte, byte) {
    if b >= 128 then (b - 128, 1) else (b, 0)
  }

  function SentRc(rc: int): Int8 {
    if rc < E_NOTFOUND then E_FOUND else ToInt8(rc)
  }

  predicate Pushable(rc: int) {
    rc == E_FOUND || rc == E_UNHANDLED
  }

  // Writing

  function PushHead(f: Framing, er: Request, rc: byte): (h: bytes)
    ensures |h| == 20
  {
    var end := [CycleByte(er.cycleTime, er.nextCycle), Parity(er.ecm0)];
    match f
    case Camd35 =>
      var size: int := 16 + 4 + 16 + 1 + (|er.nodes| + 1) * 8;
      [0x3f, size % 256, size / 256 % 256, rc] + Zeros(4) + BigEndian(2, er.srvid) + BigEndian(2, er.caid)
      + BigEndian(4, er.prid) + Zeros(2) + end
    case Cccam =>
      BigEndian(2, er.caid) + BigEndian(4, er.prid) + Zeros(4) + BigEndian(2, er.srvid) + [16 + 4 + 16, 0, rc]
      + Zeros(3) + end
  }

  function PushTail(er: Request, own: NodeId): bytes {
    er.md5 + BigEndian(4, SwapBytes(er.cspHash)) + er.cw + [(|er.nodes| + 1) % 256] + own + Flatten(er.nodes)
  }

  /** push_out */
  function PushOut(f: Framing, er: Request, own: NodeId): Option<bytes> {
    var rc: int := SentRc(er.rc);
    if Pushable(rc) then Some(PushHead(f, er, rc) + PushTail(er, own)) else None
  }

  // Reading

  /** Where the framings keep the same things */
  function RcAt(f: Framing): nat { if f == Camd35 then 3 else 14 }

  function SizeAt(f: Framing): nat { if f == Camd35 then 1 else 12 }

  function SrvidAt(f: Framing): nat { if f == Camd35 then 8 else 10 }

  function CaidAt(f: Framing): nat { if f == Camd35 then 10 else 0 }

  function PridAt(f: Framing): nat { if f == Camd35 then 12 else 2 }

  function SizeOf(f: Framing, b: bytes): nat
    requires |b| >= 20
  {
    var lo, hi: int := b[SizeAt(f)], b[SizeAt(f) + 1];
    lo + hi * 256
  }

  /** What a push says, and the peer's node id as far as it is known afterwards. */
  datatype Accepted = Accepted(er: Request, peer: Option<NodeId>)

  function ReadRequest(f: Framing, b: bytes, nodes: seq<NodeId>): Request
    requires |b| >= 56
  {
    WordSizes();
    var (time, next) := ReadCycle(b[18]);
    Request(ToInt8(b[RcAt(f)]), DecodedSid(b[SrvidAt(f)..SrvidAt(f) + 2]), DecodedSid(b[CaidAt(f)..CaidAt(f) + 2]),
            HeadWord(b, PridAt(f)), Parity(b[19]), b[20..36], SwapBytes(HeadWord(b, 36)), b[40..56], time, next, nodes)
  }

  /** The node list, if there is one and it is complete */
  function ReadNodes(f: Framing, b: bytes, maxHop: Int8): Option<seq<NodeId>>
    requires |b| >= 56
  {
    if f == Camd35 && SizeOf(f, b) == 36 then Some([])
    else if |b| < 57 then None
    else
      var count: int := b[56];
      if count > maxHop || |b| < 57 + count * 8 then None else Some(DecodedNodes(Chunks(b[57..57 + count * 8], 8)))
  }

  /** push_in on a receive buffer, for a client with the given hop limit, whose peer's id may be
      known, and whose filters pass the request or not. The source does not look how much of the
      buffer has been received; a buffer that ends too early is refused here. */
  function PushIn(f: Framing, b: bytes, maxHop: Int8, peer: Option<NodeId>, passes: bool): Option<Accepted> {
    if |b| < 56 || !Pushable(ToInt8(b[RcAt(f)])) || !passes then None
    else if (f == Camd35 && SizeOf(f, b) < 36) || (f == Cccam && SizeOf(f, b) != 36) then None
    else
      match ReadNodes(f, b, maxHop)
      case None => None
      case Some(nodes) =>
        var known := if f == Camd35 && peer.None? && nodes != [] then Some(nodes[0]) else peer;
        var all := if nodes != [] then nodes else if known.Some? then [known.value] else if f == Cccam then [Zeros(8)] else [];
        Some(Accepted(ReadRequest(f, b, all), known))
  }

  // The round trip

  function FromDigits(a: byte, b: byte, c: byte, d: byte): Word {
    a * 0x100_0000 + b * 0x1_0000 + c * 256 + d
  }

  lemma DigitsOf(a: byte, b: byte, c: byte, d: byte)
    ensures var y := FromDigits(a, b, c, d);
            y % 256 == d && y / 256 % 256 == c && y / 0x1_0000 % 256 == b && y / 0x100_0000 == a
  {
    var y := FromDigits(a, b, c, d);
    var p: int := a * 0x1_0000 + b * 256 + c;
    assert y == 256 * p + d && y / 256 == p && y % 256 == d;
    LowDigit(p, a * 256 + b as int, c);
    var q: int := a * 256 + b;
    assert y == 0x1_0000 * q + (c * 256 + d as int) && y / 0x1_0000 == q;
    LowDigit(q, a, b);
    assert y == 0x100_0000 * a as int + (b * 0x1_0000 + c * 256 + d as int);
  }

  lemma LowDigit(p: nat, q: nat, c: byte)
    requires p == 256 * q + c
    ensures p % 256 == c && p / 256 == q
  {
  }

  lemma DigitsMake(x: Word)
    ensures x == FromDigits(x / 0x100_0000, x / 0x1_0000 % 256, x / 256 % 256, x % 256)
  {
    var p, q := x / 256, x / 0x1_0000;
    assert x == 256 * p + x % 256;
    assert q == p / 256;
    assert p == 256 * q + p % 256;
    assert q == 256 * (x / 0x100_0000) + q % 256 by {
      assert x / 0x100_0000 == q / 256;
    }
  }

  lemma SwapTwice(x: Word)
    ensures SwapBytes(SwapBytes(x)) == x
  {
    var a, b, c, d := x / 0x100_0000, x / 0x1_0000 % 256, x / 256 % 256, x % 256;
    DigitsMake(x);
    DigitsOf(d, c, b, a);
    assert SwapBytes(x) == FromDigits(d, c, b, a);
    assert SwapBytes(FromDigits(d, c, b, a)) == FromDigits(a, b, c, d);
  }

  /** It turns the four bytes of a word around. */
  lemma {:induction false} SwapReverses(x: Word)
    ensures var b := BigEndian(4, x); BigEndian(4, SwapBytes(x)) == [b[3], b[2], b[1], b[0]]
  {
    var a, b, c, d := x / 0x100_0000, x / 0x1_0000 % 256, x / 256 % 256, x % 256;
    DigitsMake(x);
    FourDigits(a, b, c, d);
    FourDigits(d, c, b, a);
    assert SwapBytes(x) == FromDigits(d, c, b, a);
  }

  lemma FourDigits(a: byte, b: byte, c: byte, d: byte)
    ensures BigEndian(4, FromDigits(a, b, c, d)) == [a, b, c, d]
  {
    var y := FromDigits(a, b, c, d);
    DigitsOf(a, b, c, d);
    assert y / 256 / 256 == y / 0x1_0000 && y / 0x1_0000 / 256 == y / 0x100_0000;
    assert BigEndian(1, y / 0x100_0000) == BigEndian(0, y / 0x100_0000 / 256) + [a];
    assert BigEndian(2, y / 0x1_0000) == BigEndian(1, y / 0x100_0000) + [b];
    assert BigEndian(3, y / 256) == BigEndian(2, y / 0x1_0000) + [c];
  }

  /** The cycle byte brings back what is known exactly when the cycle time leaves its highest
      bit free; otherwise it brings back something else. Unknown arrives as time 0. */
  lemma CycleExactlyWhen(cycleTime: byte, nextCycle: byte)
    ensures cycleTime != 0 && nextCycle < 2 ==>
              (ReadCycle(CycleByte(cycleTime, nextCycle)) == (cycleTime, nextCycle) <==> cycleTime < 128)
    ensures cycleTime == 0 || nextCycle >= 2 ==> ReadCycle(CycleByte(cycleTime, nextCycle)) == (0, 0)
  {
  }

  lemma {:induction false} WordArrives(b: bytes, off: nat, x: Word)
    requires off + 4 <= |b| && b[off..off + 4] == BigEndian(4, x)
    ensures HeadWord(b, off) == x
  {
    hide BigEndian, Value;
    WordSizes();
    ValueOfBigEndian(4, x);
  }

  lemma {:induction false} ShortArrives(b: bytes, x: Short)
    requires b == BigEndian(2, x)
    ensures DecodedSid(b) == x
  {
    hide BigEndian, Value;
    WordSizes();
    ValueOfBigEndian(2, x);
  }

  /** Where the fields of the head end up. */
  lemma HeadFields(f: Framing, er: Request, rc: byte)
    ensures var h := PushHead(f, er, rc);
            && h[RcAt(f)] == rc && h[18] == CycleByte(er.cycleTime, er.nextCycle) && h[19] == Parity(er.ecm0)
            && h[SrvidAt(f)..SrvidAt(f) + 2] == BigEndian(2, er.srvid)
            && h[CaidAt(f)..CaidAt(f) + 2] == BigEndian(2, er.caid)
            && h[PridAt(f)..PridAt(f) + 4] == BigEndian(4, er.prid)
            && (f == Cccam ==> SizeOf(f, h) == 36)
            && (f == Camd35 && |er.nodes| < 255 ==> SizeOf(f, h) == 37 + (|er.nodes| + 1) * 8)
  {
    hide BigEndian, CycleByte, Parity;
  }

  lemma TailFields(er: Request, own: NodeId)
    ensures var t := PushTail(er, own);
            && |t| == 37 + (|er.nodes| + 1) * 8
            && t[..16] == er.md5 && t[16..20] == BigEndian(4, SwapBytes(er.cspHash)) && t[20..36] == er.cw
            && t[36] == (|er.nodes| + 1) % 256 && t[37..] == Flatten([own] + er.nodes)
  {
    hide BigEndian, SwapBytes, Flatten;
    FlattenLength(er.nodes, 8);
    FlattenFront(own, er.nodes);
  }

  lemma {:induction false} FlattenFront(x: bytes, xs: seq<bytes>)
    ensures Flatten([x] + xs) == x + Flatten(xs)
  {
    var all := [x] + xs;
    if xs == [] {
      assert all == [x] && all[..0] == [];
      assert Flatten(all) == Flatten(all[..0]) + x;
    } else {
      FlattenFront(x, xs[..|xs| - 1]);
      assert all[..|all| - 1] == [x] + xs[..|xs| - 1];
    }
  }

  /** What a receiver makes of a pushed request. */
  function Canonical(er: Request, own: NodeId): Request {
    var (time, next) := ReadCycle(CycleByte(er.cycleTime, er.nextCycle));
    er.(rc := SentRc(er.rc), ecm0 := Parity(er.ecm0), cycleTime := time, nextCycle := next, nodes := [own] + er.nodes)
  }

  lemma TailArrives(f: Framing, h: bytes, er: Request, own: NodeId, stale: bytes, maxHop: Int8)
    requires |h| == 20 && |er.nodes| + 1 <= maxHop
    requires f == Camd35 ==> SizeOf(f, h) == 37 + (|er.nodes| + 1) * 8
    ensures var b := h + PushTail(er, own) + stale;
            && b[..20] == h && b[20..36] == er.md5 && b[40..56] == er.cw
            && SwapBytes(HeadWord(b, 36)) == er.cspHash
            && ReadNodes(f, b, maxHop) == Some([own] + er.nodes)
  {
    hide Flatten, Chunks, BigEndian, HeadWord, SwapBytes, DecodedNodes, PushTail;
    var t := PushTail(er, own);
    var b := h + t + stale;
    TailFields(er, own);
    assert SizeOf(f, b) == SizeOf(f, h) by { SamePrefix(b, h); }
    assert b[20..36] == t[..16] && b[36..40] == t[16..20] && b[40..56] == t[20..36];
    WordArrives(b, 36, SwapBytes(er.cspHash));
    SwapTwice(er.cspHash);
    assert b[56] == t[36];
    assert b[57..57 + (|er.nodes| + 1) * 8] == t[37..];
    ChunksOfFlatten([own] + er.nodes, 8);
    NodesArrive([own] + er.nodes);
  }

  /** What a cache keeps words under, and a push takes along. */
  datatype CwKey = CwKey(cspHash: Word, cw: ControlWord)

  function KeyOf(er: Request): CwKey {
    CwKey(er.cspHash, er.cw)
  }

  function KeyIn(b: bytes): CwKey
    requires |b| >= 56
  {
    CwKey(SwapBytes(HeadWord(b, 36)), b[40..56])
  }

  /** A push names its word, however long its node list is. */
  lemma KeyArrives(f: Framing, er: Request, own: NodeId)
    requires Pushable(SentRc(er.rc))
    ensures PushOut(f, er, own).Some?
    ensures var b := PushOut(f, er, own).value; |b| >= 57 && KeyIn(b) == KeyOf(er)
  {
    hide PushHead, PushTail, BigEndian, HeadWord, SwapBytes, Flatten;
    var b, t := PushOut(f, er, own).value, PushTail(er, own);
    TailFields(er, own);
    assert b[36..40] == t[16..20] && b[40..56] == t[20..36];
    WordArrives(b, 36, SwapBytes(er.cspHash));
    SwapTwice(er.cspHash);
  }

  /** For every request and every node list the hop limit allows, a push brings back ids,
      digest, hash, control word and parity, and the nodes with the sender in front, whatever
      else the receiver's buffer holds behind it. */
  lemma PushArrives(f: Framing, er: Request, own: NodeId, stale: bytes, maxHop: Int8, peer: Option<NodeId>)
    requires Pushable(SentRc(er.rc)) && |er.nodes| + 1 <= maxHop
    ensures PushOut(f, er, own).Some?
    ensures var a := PushIn(f, PushOut(f, er, own).value + stale, maxHop, peer, true);
            && a.Some? && a.value.er == Canonical(er, own)
            && a.value.peer == if f == Camd35 && peer.None? then Some(own) else peer
  {
    hide PushHead, PushTail, BigEndian, HeadWord, DecodedSid, SwapBytes, ReadNodes, ReadCycle, CycleByte, Parity;
    var rc: int := SentRc(er.rc);
    var h, b := PushHead(f, er, rc), PushOut(f, er, own).value + stale;
    HeadFields(f, er, rc);
    TailFields(er, own);
    TailArrives(f, h, er, own, stale, maxHop);
    FieldsArrive(f, er, rc, b);
    ParityTwice(er.ecm0);
  }

  lemma ParityTwice(b: byte)
    ensures Parity(Parity(b)) == Parity(b)
  {
  }

  /** Only the two bytes that ECMs begin with are passed on. */
  lemma ParityExactlyWhen(b: byte)
    ensures Parity(b) == b <==> b in {0, 0x80, 0x81}
    ensures Parity(b) != b ==> Parity(b) == 0
  {
  }

  lemma FieldsArrive(f: Framing, er: Request, rc: byte, b: bytes)
    requires |b| >= 57 && b[..20] == PushHead(f, er, rc)
    ensures var h := PushHead(f, er, rc);
            && DecodedSid(b[SrvidAt(f)..SrvidAt(f) + 2]) == er.srvid && DecodedSid(b[CaidAt(f)..CaidAt(f) + 2]) == er.caid
            && HeadWord(b, PridAt(f)) == er.prid
            && b[RcAt(f)] == rc && b[18] == h[18] && b[19] == h[19] && SizeOf(f, b) == SizeOf(f, h)
  {
    hide PushHead, BigEndian, HeadWord, DecodedSid;
    var h := PushHead(f, er, rc);
    HeadFields(f, er, rc);
    assert forall i :: 0 <= i < 20 ==> b[i] == h[i] by {
      assert forall i :: 0 <= i < 20 ==> b[..20][i] == b[i];
    }
    assert b[SrvidAt(f)..SrvidAt(f) + 2] == h[SrvidAt(f)..SrvidAt(f) + 2];
    assert b[CaidAt(f)..CaidAt(f) + 2] == h[CaidAt(f)..CaidAt(f) + 2];
    assert b[PridAt(f)..PridAt(f) + 4] == h[PridAt(f)..PridAt(f) + 4];
    ShortArrives(b[SrvidAt(f)..SrvidAt(f) + 2], er.srvid);
    ShortArrives(b[CaidAt(f)..CaidAt(f) + 2], er.caid);
    WordArrives(b, PridAt(f), er.prid);
  }

  lemma TailRefused(f: Framing, h: bytes, er: Request, own: NodeId, stale: bytes, maxHop: Int8)
    requires |h| == 20 && maxHop < |er.nodes| + 1 < 256
    requires f == Camd35 ==> SizeOf(f, h) == 37 + (|er.nodes| + 1) * 8
    ensures |PushTail(er, own)| >= 37 && ReadNodes(f, h + PushTail(er, own) + stale, maxHop) == None
  {
    hide PushTail, Flatten, Chunks, DecodedNodes, BigEndian, SwapBytes;
    var t := PushTail(er, own);
    var b := h + t + stale;
    TailFields(er, own);
    assert t[36] == |er.nodes| + 1;
    assert b[56] == t[36];
    assert b[SizeAt(f)] == h[SizeAt(f)] && b[SizeAt(f) + 1] == h[SizeAt(f) + 1];
  }

  /** A longer list is refused as a whole, as long as its length fits the count byte. */
  lemma LongListIsRefused(f: Framing, er: Request, own: NodeId, stale: bytes, maxHop: Int8, peer: Option<NodeId>, passes: bool)
    requires Pushable(SentRc(er.rc)) && maxHop < |er.nodes| + 1 < 256
    ensures PushIn(f, PushOut(f, er, own).value + stale, maxHop, peer, passes) == None
  {
    hide PushHead, PushTail, ReadRequest, ReadNodes, SizeOf;
    var rc: int := SentRc(er.rc);
    HeadFields(f, er, rc);
    TailRefused(f, PushHead(f, er, rc), er, own, stale, maxHop);
  }

  // The layouts

  /** Bytes 0 to 19 of the two framings: numbers most significant byte first, but the length of the
      camd35 one. */
  lemma HeadLayout(f: Framing, er: Request, rc: byte)
    ensures var h := PushHead(f, er, rc); var size: int := 37 + (|er.nodes| + 1) * 8;
            && h[18] == CycleByte(er.cycleTime, er.nextCycle) && h[19] == Parity(er.ecm0)
            && match f
               case Camd35 =>
                 && h[0] == 0x3f && h[1] == size % 256 && h[2] == size / 256 % 256 && h[3] == rc
                 && h[8..10] == BigEndian(2, er.srvid) && h[10..12] == BigEndian(2, er.caid)
                 && h[12..16] == BigEndian(4, er.prid) && h[4..8] == Zeros(4) && h[16..18] == Zeros(2)
               case Cccam =>
                 && h[0..2] == BigEndian(2, er.caid) && h[2..6] == BigEndian(4, er.prid)
                 && h[10..12] == BigEndian(2, er.srvid) && h[12] == 36 && h[13] == 0 && h[14] == rc
                 && h[6..10] == Zeros(4) && h[15..18] == Zeros(3)
  {
    hide BigEndian, CycleByte, Parity;
  }

  /** Every field of a push where a peer looks for it: behind the head the digest, the hash with its lowest
      byte first, the control word, the number of nodes, and the sender in front of the nodes before it. */
  lemma PushLayout(f: Framing, er: Request, own: NodeId)
    requires Pushable(SentRc(er.rc))
    ensures PushOut(f, er, own).Some?
    ensures var b, hash := PushOut(f, er, own).value, BigEndian(4, er.cspHash);
            && |b| == 57 + (|er.nodes| + 1) * 8 && b[..20] == PushHead(f, er, SentRc(er.rc) as int)
            && b[20..36] == er.md5 && b[36..40] == [hash[3], hash[2], hash[1], hash[0]] && b[40..56] == er.cw
            && b[56] == (|er.nodes| + 1) % 256 && b[57..] == Flatten([own] + er.nodes)
  {
    hide PushHead, PushTail, BigEndian, SwapBytes, Flatten;
    var t, b := PushTail(er, own), PushOut(f, er, own).value;
    TailFields(er, own);
    SwapReverses(er.cspHash);
    assert b[20..36] == t[..16] && b[36..40] == t[16..20] && b[40..56] == t[20..36] && b[56] == t[36];
    assert b[57..] == t[37..];
  }

  /** Node i of a push, the sender being node 0. */
  lemma NodeInPush(f: Framing, er: Request, own: NodeId, i: nat)
    requires Pushable(SentRc(er.rc)) && i <= |er.nodes|
    ensures PushOut(f, er, own).Some?
    ensures var b := PushOut(f, er, own).value;
            65 + 8 * i <= |b| && b[57 + 8 * i..65 + 8 * i] == if i == 0 then own else er.nodes[i - 1]
  {
    hide PushOut, Flatten, BigEndian, PushHead;
    PushLayout(f, er, own);
    var b, nodes := PushOut(f, er, own).value, [own] + er.nodes;
    FlattenAt(nodes, 8, i);
    assert b[57..|b|] == b[57..];
    SliceOfSlice(b, 57, |b|, Flatten(nodes), i * 8, i * 8 + 8);
  }

  /** Of the lengths a push may claim, camd35 takes those from 36 on, 36 itself for the old format without
      nodes; it then lists the peer, if that is known. CCcam takes 36 alone. */
  lemma LengthsTaken(f: Framing, b: bytes, maxHop: Int8, peer: Option<NodeId>)
    requires |b| >= 57
    ensures var a := PushIn(f, b, maxHop, peer, true);
            && (a.Some? ==> if f == Camd35 then SizeOf(f, b) >= 36 else SizeOf(f, b) == 36)
            && (f == Camd35 && SizeOf(f, b) == 36 ==>
                  && (a.Some? <==> ToInt8(b[3]) in {E_FOUND, E_UNHANDLED})
                  && (a.Some? ==> a.value.er.nodes == (if peer.Some? then [peer.value] else []) && a.value.peer == peer))
  {
    hide ReadRequest, Chunks;
    RequestNodes(f, b, []);
    if peer.Some? {
      RequestNodes(f, b, [peer.value]);
    }
  }

  lemma RequestNodes(f: Framing, b: bytes, nodes: seq<NodeId>)
    requires |b| >= 56
    ensures ReadRequest(f, b, nodes).nodes == nodes
  {
    hide HeadWord, DecodedSid, SwapBytes;
  }
}
