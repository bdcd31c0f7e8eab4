/** The MSG_NEW_CARD wire format: write_card (oscam/module-cccshare.c:126-266) and
    read_card (oscam/module-cccam.c:2454-2604). */
module CardWire {
  import opened Bytes
  import opened Cards

  // Fixed-size records

  function Flatten(xs: seq<bytes>): bytes {
    if xs == [] then [] else Flatten(xs[..|xs| - 1]) + xs[|xs| - 1]
  }

  /** b cut into pieces of the given size, from the end */
  function Chunks(b: bytes, size: nat): (r: seq<bytes>)
    requires size > 0
    ensures forall c :: c in r ==> |c| == size
  {
    if |b| < size then [] else Chunks(b[..|b| - size], size) + [b[|b| - size..]]
  }

  lemma {:induction false} FlattenLength(xs: seq<bytes>, size: nat)
    requires forall x :: x in xs ==> |x| == size
    ensures |Flatten(xs)| == |xs| * size
  {
    if xs == [] {
    } else {
      FlattenLength(xs[..|xs| - 1], size);
      OneMore(|xs| - 1, size);
    }
  }

  lemma {:induction false} FlattenAt(xs: seq<bytes>, size: nat, i: nat)
    requires (forall x :: x in xs ==> |x| == size) && i < |xs|
    ensures i * size + size <= |Flatten(xs)| && Flatten(xs)[i * size..i * size + size] == xs[i]
  {
    FlattenLength(xs, size);
    OneMore(i, size);
    var front := xs[..|xs| - 1];
    FlattenLength(front, size);
    OneMore(|front|, size);
    if i < |front| {
      FlattenAt(front, size, i);
      assert Flatten(xs)[i * size..i * size + size] == Flatten(front)[i * size..i * size + size];
    }
  }

  lemma OneMore(n: nat, size: nat)
    ensures (n + 1) * size == n * size + size
  {
  }

  lemma {:induction false} ChunksOfFlatten(xs: seq<bytes>, size: nat)
    requires size > 0 && forall x :: x in xs ==> |x| == size
    ensures Chunks(Flatten(xs), size) == xs
  {
    if xs == [] {
    } else {
      var front := xs[..|xs| - 1];
      ChunksOfFlatten(front, size);
      var b := Flatten(xs);
      assert b[..|b| - size] == Flatten(front) && b[|b| - size..] == xs[|xs| - 1];
      assert xs == front + [xs[|xs| - 1]];
    }
  }

  lemma {:induction false} ChunkCount(b: bytes, size: nat, n: nat)
    requires size > 0 && |b| == n * size
    ensures |Chunks(b, size)| == n
  {
    if n == 0 {
    } else {
      OneMore(n - 1, size);
      ChunkCount(b[..|b| - size], size, n - 1);
    }
  }

  // Writing

  /** What write_card is told besides the card: the own node id to append, whether the
      peer knows sids, and whether addresses may be shown. */
  datatype Options = Options(own: Option<NodeId>, ext: bool, au: bool)

  /** The sid lists of a card with a service table: the table's sids and those of the
      rejecting tables, at most 240 each; otherwise the card's own lists, at most 200
      each, without temporary blocks. */
  datatype SidLists = SidLists(good: seq<Short>, bad: seq<Short>)

  predicate Sized(l: SidLists) {
    |l.good| <= 240 && |l.bad| <= 240
  }

  function Take<T>(xs: seq<T>, n: nat): seq<T> {
    if |xs| <= n then xs else xs[..n]
  }

  function GoodSids(c: Card): seq<Short> {
    seq(|c.goodSids|, i requires 0 <= i < |c.goodSids| => c.goodSids[i].sid)
  }

  function LastingBadSids(bad: seq<BadSid>): seq<Short> {
    if bad == [] then []
    else
      var front, b := LastingBadSids(bad[..|bad| - 1]), bad[|bad| - 1];
      if b.blockedTill > 0 then front else front + [b.sid]
  }

  /** tableGood and tableBad are the sids of the card's table and of the rejecting tables
      for its caid, one after the other. */
  function ListsFor(c: Card, tableGood: seq<Short>, tableBad: seq<Short>): (l: SidLists)
    ensures Sized(l)
  {
    if c.sidtab.Some? then SidLists(Take(tableGood, 240), Take(tableBad, 240))
    else SidLists(Take(GoodSids(c), 200), Take(LastingBadSids(c.badSids), 200))
  }

  /** Services that are only blocked for a while are not told. */
  lemma {:induction false} LastingExactly(bad: seq<BadSid>, s: Short)
    ensures s in LastingBadSids(bad) <==> exists b :: b in bad && b.sid == s && b.blockedTill <= 0
  {
    if bad == [] {
    } else {
      var front, last := bad[..|bad| - 1], bad[|bad| - 1];
      LastingExactly(front, s);
      assert bad == front + [last];
      if last.blockedTill <= 0 && last.sid == s {
        assert last in bad;
      }
    }
  }

  /** The sids sent are the first of their lists: 240 of the tables' or 200 of the card's own. */
  lemma SidsAreCut(c: Card, tableGood: seq<Short>, tableBad: seq<Short>)
    ensures var l, n := ListsFor(c, tableGood, tableBad), if c.sidtab.Some? then 240 else 200;
            var good := if c.sidtab.Some? then tableGood else GoodSids(c);
            var bad := if c.sidtab.Some? then tableBad else LastingBadSids(c.badSids);
            && l.good <= good && l.bad <= bad
            && |l.good| == (if |good| < n then |good| else n) && |l.bad| == if |bad| < n then |bad| else n
  {
    hide GoodSids, LastingBadSids;
  }

  function ProviderBytes(p: Provider, au: bool): (r: bytes)
    ensures |r| == 7
  {
    BigEndian(3, p.prov) + (if au then p.sa else Zeros(4))
  }

  function ProviderRecords(c: Card, au: bool): (r: seq<bytes>)
    ensures |r| == |c.providers| && forall x :: x in r ==> |x| == 7
  {
    seq(|c.providers|, i requires 0 <= i < |c.providers| => ProviderBytes(c.providers[i], au))
  }

  function SidRecords(sids: seq<Short>): (r: seq<bytes>)
    ensures |r| == |sids| && forall x :: x in r ==> |x| == 2
  {
    seq(|sids|, i requires 0 <= i < |sids| => BigEndian(2, sids[i]))
  }

  function NodesSent(c: Card, o: Options): seq<NodeId> {
    if o.own.Some? then c.nodes + [o.own.value] else c.nodes
  }

  function Head(c: Card, o: Options, l: SidLists): (r: bytes)
    requires Sized(l)
    ensures |r| == if o.ext then 23 else 21
  {
    BigEndian(4, c.id) + BigEndian(4, c.remoteId) + BigEndian(2, c.caid) + [c.hop, c.reshare]
    + (if o.au then c.serial else Zeros(8)) + [|c.providers| % 256] + (if o.ext then [|l.good|, |l.bad|] else [])
  }

  function GoodBytes(l: SidLists, ext: bool): bytes {
    if ext then Flatten(SidRecords(l.good)) else []
  }

  function BadBytes(l: SidLists, ext: bool): bytes {
    if ext then Flatten(SidRecords(l.bad)) else []
  }

  /** The message body */
  function Encode(c: Card, o: Options, l: SidLists): bytes
    requires Sized(l)
  {
    Head(c, o, l) + Flatten(ProviderRecords(c, o.au)) + (GoodBytes(l, o.ext) + BadBytes(l, o.ext))
    + [|NodesSent(c, o)| % 256] + Flatten(NodesSent(c, o))
  }

  // Reading

  predicate Betacrypt(caid: Short) {
    caid / 256 == 0x17
  }

  function DecodedProvider(b: bytes, i: nat, beta: bool): Provider
    requires |b| == 7
  {
    WordSizes();
    var prov := Value(b[..3]);
    Provider(if prov == 0xFFFFFF && beta then i % 0x1_0000_0000 else prov, b[3..])
  }

  function DecodedProviders(chunks: seq<bytes>, beta: bool): seq<Provider>
    requires forall c :: c in chunks ==> |c| == 7
  {
    seq(|chunks|, i requires 0 <= i < |chunks| => DecodedProvider(chunks[i], i, beta))
  }

  function DecodedSid(b: bytes): Short
    requires |b| == 2
  {
    WordSizes();
    Value(b)
  }

  function DecodedGood(chunks: seq<bytes>): seq<Sid>
    requires forall c :: c in chunks ==> |c| == 2
  {
    seq(|chunks|, i requires 0 <= i < |chunks| => Sid(DecodedSid(chunks[i]), 0, 0))
  }

  function DecodedBad(chunks: seq<bytes>): seq<BadSid>
    requires forall c :: c in chunks ==> |c| == 2
  {
    seq(|chunks|, i requires 0 <= i < |chunks| => BadSid(DecodedSid(chunks[i]), 0, 0, 0))
  }

  function DecodedNodes(chunks: seq<bytes>): seq<NodeId>
    requires forall c :: c in chunks ==> |c| == 8
  {
    seq(|chunks|, i requires 0 <= i < |chunks| => chunks[i])
  }

  function HeadWord(b: bytes, off: nat): Word
    requires off + 4 <= |b|
  {
    WordSizes();
    Value(b[off..off + 4])
  }

  /** Where the parts of a message begin: providers, good sids, bad sids, node count. */
  datatype Layout = Layout(p: nat, s: nat, r: nat, n: nat)

  function LayoutOf(b: bytes, ext: bool): (y: Layout)
    requires |b| >= if ext then 23 else 21
    ensures 21 <= y.p <= y.s <= y.r <= y.n
  {
    var nprov, nassign, nreject: int := b[20], if ext then b[21] else 0, if ext then b[22] else 0;
    var p := if ext then 23 else 21;
    Layout(p, p + nprov * 7, p + nprov * 7 + nassign * 2, p + nprov * 7 + nassign * 2 + nreject * 2)
  }

  function DecodedBody(b: bytes, ext: bool, y: Layout): Card
    requires 21 <= y.p <= y.s <= y.r <= y.n <= |b|
  {
    Card(HeadWord(b, 0), HeadWord(b, 4), DecodedSid(b[8..10]), b[10], b[11], b[12..20],
         DecodedProviders(Chunks(b[y.p..y.s], 7), Betacrypt(DecodedSid(b[8..10]))),
         DecodedGood(Chunks(b[y.s..y.r], 2)), DecodedBad(Chunks(b[y.r..y.n], 2)), [],
         CT_REMOTECARD, None, {}, 0, ext, 0, None)
  }

  /** read_card on a message of |b| bytes; None stands for the null pointer. */
  function Decode(b: bytes, ext: bool): Option<Card> {
    if |b| < 21 || (ext && |b| < 23) then None
    else
      var y := LayoutOf(b, ext);
      if |b| < y.n then None
      else if |b| < y.n + 1 then Some(DecodedBody(b, ext, y))
      else
        var count: int := b[y.n];
        if |b| < y.n + 1 + count * 8 then None
        else Some(DecodedBody(b, ext, y).(nodes := DecodedNodes(Chunks(b[y.n + 1..y.n + 1 + count * 8], 8))))
  }

  // The round trip

  function CanonicalProvider(p: Provider, i: nat, au: bool, beta: bool): Provider {
    var prov := p.prov % 0x100_0000;
    Provider(if prov == 0xFFFFFF && beta then i % 0x1_0000_0000 else prov, if au then p.sa else Zeros(4))
  }

  function CanonicalProviders(c: Card, au: bool): seq<Provider> {
    seq(|c.providers|, i requires 0 <= i < |c.providers| => CanonicalProvider(c.providers[i], i, au, Betacrypt(c.caid)))
  }

  function CanonicalGood(sids: seq<Short>): seq<Sid> {
    seq(|sids|, i requires 0 <= i < |sids| => Sid(sids[i], 0, 0))
  }

  function CanonicalBad(sids: seq<Short>): seq<BadSid> {
    seq(|sids|, i requires 0 <= i < |sids| => BadSid(sids[i], 0, 0, 0))
  }

  /** What a receiver makes of a card that was sent. */
  function Canonical(c: Card, o: Options, l: SidLists): Card {
    Card(c.id, c.remoteId, c.caid, c.hop, c.reshare, if o.au then c.serial else Zeros(8),
         CanonicalProviders(c, o.au), if o.ext then CanonicalGood(l.good) else [], if o.ext then CanonicalBad(l.bad) else [],
         NodesSent(c, o), CT_REMOTECARD, None, {}, 0, o.ext, 0, None)
  }

  lemma {:induction false} ThreeLowBytes(x: Word)
    ensures Value(BigEndian(3, x)) == x % 0x100_0000
  {
    hide Value;
    var m := x % 0x100_0000;
    SameLowBytes(x, m);
    assert BigEndian(3, x) == BigEndian(2, x / 256) + [x % 256];
    assert BigEndian(2, x / 256) == BigEndian(1, x / 256 / 256) + [x / 256 % 256];
    assert BigEndian(3, m) == BigEndian(2, m / 256) + [m % 256];
    assert BigEndian(2, m / 256) == BigEndian(1, m / 256 / 256) + [m / 256 % 256];
    WordSizes();
    ValueOfBigEndian(3, m);
  }

  lemma SameLowBytes(x: Word, m: nat)
    requires m == x % 0x100_0000
    ensures x % 256 == m % 256 && x / 256 % 256 == m / 256 % 256 && x / 256 / 256 % 256 == m / 256 / 256 % 256
  {
    var t := x / 0x100_0000;
    assert x == 0x100_0000 * t + m;
    assert x / 256 == 0x1_0000 * t + m / 256;
    assert x / 256 / 256 == 0x100 * t + m / 256 / 256;
  }

  lemma ProvidersArrive(c: Card, au: bool)
    ensures DecodedProviders(ProviderRecords(c, au), Betacrypt(c.caid)) == CanonicalProviders(c, au)
  {
    hide Betacrypt, Value, BigEndian;
    forall i | 0 <= i < |c.providers|
      ensures DecodedProvider(ProviderRecords(c, au)[i], i, Betacrypt(c.caid))
              == CanonicalProvider(c.providers[i], i, au, Betacrypt(c.caid))
    {
      var p := c.providers[i];
      assert ProviderBytes(p, au)[..3] == BigEndian(3, p.prov);
      assert ProviderBytes(p, au)[3..] == if au then p.sa else Zeros(4);
      ThreeLowBytes(p.prov);
    }
  }

  lemma SidsArrive(sids: seq<Short>)
    ensures forall i :: 0 <= i < |sids| ==> DecodedSid(SidRecords(sids)[i]) == sids[i]
  {
    hide Value, BigEndian;
    forall i | 0 <= i < |sids|
      ensures DecodedSid(SidRecords(sids)[i]) == sids[i]
    {
      WordSizes();
      ValueOfBigEndian(2, sids[i]);
    }
  }

  lemma RecordLengths(c: Card, o: Options, l: SidLists)
    requires Sized(l)
    ensures |Flatten(ProviderRecords(c, o.au))| == |c.providers| * 7 && |Flatten(NodesSent(c, o))| == |NodesSent(c, o)| * 8
    ensures |GoodBytes(l, o.ext)| == (if o.ext then |l.good| * 2 else 0)
    ensures |BadBytes(l, o.ext)| == (if o.ext then |l.bad| * 2 else 0)
  {
    hide Flatten;
    FlattenLength(ProviderRecords(c, o.au), 7);
    FlattenLength(SidRecords(l.good), 2);
    FlattenLength(SidRecords(l.bad), 2);
    FlattenLength(NodesSent(c, o), 8);
  }

  lemma Pieces(c: Card, o: Options, l: SidLists)
    requires Sized(l) && |NodesSent(c, o)| < 256
    ensures var b, h := Encode(c, o, l), Head(c, o, l); var p := |h|; var s := p + |Flatten(ProviderRecords(c, o.au))|;
            var r := s + |GoodBytes(l, o.ext)|; var n := r + |BadBytes(l, o.ext)|;
            && |b| == n + 1 + |Flatten(NodesSent(c, o))| && b[..p] == h
            && b[p..s] == Flatten(ProviderRecords(c, o.au)) && b[s..r] == GoodBytes(l, o.ext) && b[r..n] == BadBytes(l, o.ext)
            && b[n] == |NodesSent(c, o)| && b[n + 1..] == Flatten(NodesSent(c, o))
  {
    hide *;
    EncodeParts(c, o, l);
    SixPieces(Encode(c, o, l), Head(c, o, l), Flatten(ProviderRecords(c, o.au)), GoodBytes(l, o.ext), BadBytes(l, o.ext),
              |NodesSent(c, o)| % 256, Flatten(NodesSent(c, o)));
  }

  /** The parts of a message lie where the reader looks for them. */
  lemma PartsInPlace(c: Card, o: Options, l: SidLists)
    requires Sized(l) && |c.providers| < 256 && |NodesSent(c, o)| < 256
    ensures var b := Encode(c, o, l); var y := LayoutOf(b, o.ext);
            && |b| == y.n + 1 + |NodesSent(c, o)| * 8 && b[y.n] == |NodesSent(c, o)|
            && b[..y.p] == Head(c, o, l)
            && b[y.p..y.s] == Flatten(ProviderRecords(c, o.au))
            && b[y.s..y.r] == GoodBytes(l, o.ext) && b[y.r..y.n] == BadBytes(l, o.ext)
            && b[y.n + 1..] == Flatten(NodesSent(c, o))
  {
    hide *;
    RecordLengths(c, o, l);
    Pieces(c, o, l);
    HeadBytes(c, o, l);
    var b, h := Encode(c, o, l), Head(c, o, l);
    SamePrefix(b, h);
    LayoutOfCounts(b, o.ext, |c.providers|, if o.ext then |l.good| else 0, if o.ext then |l.bad| else 0);
  }

  lemma SamePrefix(b: bytes, h: bytes)
    requires |h| <= |b| && b[..|h|] == h
    ensures forall i :: 0 <= i < |h| ==> b[i] == h[i]
  {
  }

  lemma EncodeParts(c: Card, o: Options, l: SidLists)
    requires Sized(l)
    ensures Encode(c, o, l) == Head(c, o, l) + Flatten(ProviderRecords(c, o.au)) + (GoodBytes(l, o.ext) + BadBytes(l, o.ext))
                               + [|NodesSent(c, o)| % 256] + Flatten(NodesSent(c, o))
  {
  }

  lemma LayoutOfCounts(b: bytes, ext: bool, nprov: nat, nassign: nat, nreject: nat)
    requires |b| >= if ext then 23 else 21
    requires b[20] == nprov && nassign == (if ext then b[21] else 0) && nreject == if ext then b[22] else 0
    ensures var p := if ext then 23 else 21;
            LayoutOf(b, ext) == Layout(p, p + nprov * 7, p + nprov * 7 + nassign * 2, p + nprov * 7 + nassign * 2 + nreject * 2)
  {
  }

  lemma SixPieces(b: bytes, h: bytes, ps: bytes, gs: bytes, bs: bytes, n: byte, ns: bytes)
    requires b == h + ps + (gs + bs) + [n] + ns
    ensures var p := |h|; var s := p + |ps|; var r := s + |gs|; var t := r + |bs|;
            |b| == t + 1 + |ns| && b[..p] == h && b[p..s] == ps && b[s..r] == gs && b[r..t] == bs
            && b[t] == n && b[t + 1..] == ns
  {
  }

  lemma HeadBytes(c: Card, o: Options, l: SidLists)
    requires Sized(l)
    ensures var h := Head(c, o, l);
            && h[20] == |c.providers| % 256 && (o.ext ==> h[21] == |l.good| && h[22] == |l.bad|)
            && h[..4] == BigEndian(4, c.id) && h[4..8] == BigEndian(4, c.remoteId) && h[8..10] == BigEndian(2, c.caid)
            && h[10] == c.hop && h[11] == c.reshare && h[12..20] == (if o.au then c.serial else Zeros(8))
  {
    hide BigEndian;
  }

  lemma HeadArrives(c: Card, o: Options, l: SidLists, b: bytes)
    requires Sized(l) && |b| >= 21 && b[..21] == Head(c, o, l)[..21]
    ensures HeadWord(b, 0) == c.id && HeadWord(b, 4) == c.remoteId && DecodedSid(b[8..10]) == c.caid
    ensures b[10] == c.hop && b[11] == c.reshare && b[12..20] == if o.au then c.serial else Zeros(8)
  {
    hide Value, BigEndian, Head;
    HeadBytes(c, o, l);
    var h := Head(c, o, l);
    assert forall i :: 0 <= i < 21 ==> b[i] == b[..21][i] && h[i] == h[..21][i];
    assert b[0..4] == h[..4] && b[4..8] == h[4..8] && b[8..10] == h[8..10] && b[12..20] == h[12..20];
    WordSizes();
    ValueOfBigEndian(4, c.id);
    ValueOfBigEndian(4, c.remoteId);
    ValueOfBigEndian(2, c.caid);
  }

  /** A message that fits the buffer has counts that fit their bytes. */
  lemma FittingCounts(c: Card, o: Options, l: SidLists)
    requires Sized(l) && |Encode(c, o, l)| <= CC_MAXMSGSIZE
    ensures |c.providers| < 256 && |NodesSent(c, o)| < 256
  {
    hide Flatten, ProviderRecords, SidRecords, Head;
    FlattenLength(ProviderRecords(c, o.au), 7);
    FlattenLength(NodesSent(c, o), 8);
  }

  lemma NodesArrive(nodes: seq<NodeId>)
    ensures DecodedNodes(nodes) == nodes
  {
  }

  lemma SidsDecoded(sids: seq<Short>)
    ensures DecodedGood(SidRecords(sids)) == CanonicalGood(sids) && DecodedBad(SidRecords(sids)) == CanonicalBad(sids)
  {
    hide SidRecords, DecodedSid;
    SidsArrive(sids);
  }

  lemma SidChunks(l: SidLists, ext: bool)
    ensures var good, bad := Chunks(GoodBytes(l, ext), 2), Chunks(BadBytes(l, ext), 2);
            && DecodedGood(good) == (if ext then CanonicalGood(l.good) else [])
            && DecodedBad(bad) == (if ext then CanonicalBad(l.bad) else [])
  {
    hide Flatten, SidRecords, DecodedSid, CanonicalGood, CanonicalBad;
    if ext {
      ChunksOfFlatten(SidRecords(l.good), 2);
      ChunksOfFlatten(SidRecords(l.bad), 2);
      SidsDecoded(l.good);
      SidsDecoded(l.bad);
    }
  }

  lemma BodyArrives(c: Card, o: Options, l: SidLists, b: bytes, y: Layout)
    requires Sized(l) && |c.providers| < 256 && |NodesSent(c, o)| < 256
    requires b == Encode(c, o, l) && |b| >= (if o.ext then 23 else 21) && y == LayoutOf(b, o.ext) && y.n <= |b|
    ensures DecodedBody(b, o.ext, y) == Canonical(c, o, l).(nodes := [])
  {
    hide Flatten, Chunks, ProviderRecords, SidRecords, Head, Encode, Betacrypt, DecodedProvider, CanonicalProvider,
         HeadWord, DecodedSid, LayoutOf, NodesSent, GoodBytes, BadBytes, DecodedGood, DecodedBad;
    PartsInPlace(c, o, l);
    assert b[..21] == b[..y.p][..21];
    HeadArrives(c, o, l, b);
    ChunksOfFlatten(ProviderRecords(c, o.au), 7);
    ProvidersArrive(c, o.au);
    SidChunks(l, o.ext);
  }

  /** For every card whose message fits: reading what was written rebuilds the card, up
      to what the format does not carry. */
  lemma DecodeOfEncode(c: Card, o: Options, l: SidLists)
    requires Sized(l) && |Encode(c, o, l)| <= CC_MAXMSGSIZE
    ensures Decode(Encode(c, o, l), o.ext) == Some(Canonical(c, o, l))
  {
    hide Flatten, Chunks, Encode, LayoutOf, NodesSent, DecodedBody, DecodedNodes, CanonicalProviders, Head, ProviderRecords,
         GoodBytes, BadBytes;
    FittingCounts(c, o, l);
    PartsInPlace(c, o, l);
    var b := Encode(c, o, l);
    var y := LayoutOf(b, o.ext);
    BodyArrives(c, o, l, b, y);
    ChunksOfFlatten(NodesSent(c, o), 8);
    NodesArrive(NodesSent(c, o));
    assert b[y.n + 1..y.n + 1 + (b[y.n] as int) * 8] == b[y.n + 1..];
  }

  /** The bytes of a message that tell where its parts begin are in its head. */
  lemma SameLayout(b: bytes, t: nat, ext: bool)
    requires (if ext then 23 else 21) <= t <= |b|
    ensures LayoutOf(b[..t], ext) == LayoutOf(b, ext)
  {
  }

  lemma CutBody(b: bytes, t: nat, ext: bool, y: Layout)
    requires 21 <= y.p <= y.s <= y.r <= y.n <= t <= |b|
    ensures DecodedBody(b[..t], ext, y) == DecodedBody(b, ext, y)
  {
    hide Chunks, DecodedProviders, DecodedGood, DecodedBad, Betacrypt, Value;
    var x := b[..t];
    assert x[0..4] == b[0..4] && x[4..8] == b[4..8] && x[8..10] == b[8..10] && x[12..20] == b[12..20];
    assert x[y.p..y.s] == b[y.p..y.s] && x[y.s..y.r] == b[y.s..y.r] && x[y.r..y.n] == b[y.r..y.n];
  }

  /** Of the beginnings of a message exactly two are read: all of it, and what comes before the count of nodes;
      the latter gives the card without nodes. */
  lemma CutExactlyWhen(c: Card, o: Options, l: SidLists, t: nat)
    requires Sized(l) && t <= |Encode(c, o, l)| <= CC_MAXMSGSIZE
    ensures var b := Encode(c, o, l); var n := |b| - 1 - 8 * |NodesSent(c, o)|;
            && (Decode(b[..t], o.ext).Some? <==> t == n || t == |b|)
            && (t == n ==> Decode(b[..t], o.ext) == Some(Canonical(c, o, l).(nodes := [])))
  {
    hide Flatten, Chunks, Encode, LayoutOf, NodesSent, DecodedBody, DecodedNodes, CanonicalProviders, Head, ProviderRecords,
         GoodBytes, BadBytes;
    FittingCounts(c, o, l);
    PartsInPlace(c, o, l);
    var b := Encode(c, o, l);
    var y := LayoutOf(b, o.ext);
    PartsStart(b, o.ext);
    BodyArrives(c, o, l, b, y);
    if t >= if o.ext then 23 else 21 {
      SameLayout(b, t, o.ext);
      if t >= y.n {
        CutBody(b, t, o.ext, y);
      }
    }
  }

  /** Where a message has what: share id, remote id and caid, most significant byte first, hop, reshare,
      serial, the counts of providers and sids, seven bytes for every provider, two for every sid, the
      count of nodes, and eight bytes for every node. */
  lemma MessageLayout(c: Card, o: Options, l: SidLists)
    requires Sized(l) && |Encode(c, o, l)| <= CC_MAXMSGSIZE
    ensures var b := Encode(c, o, l); var p := if o.ext then 23 else 21;
            && |b| >= p
            && b[..4] == BigEndian(4, c.id) && b[4..8] == BigEndian(4, c.remoteId) && b[8..10] == BigEndian(2, c.caid)
            && b[10] == c.hop && b[11] == c.reshare && b[12..20] == (if o.au then c.serial else Zeros(8))
            && b[20] == |c.providers| && (o.ext ==> b[21] == |l.good| && b[22] == |l.bad|)
  {
    hide Encode, Head, Flatten, ProviderRecords, GoodBytes, BadBytes, NodesSent, BigEndian;
    FittingCounts(c, o, l);
    PartsInPlace(c, o, l);
    HeadBytes(c, o, l);
    var b, h := Encode(c, o, l), Head(c, o, l);
    assert b[..|h|] == h;
    SamePrefix(b, h);
    assert b[..4] == h[..4] && b[4..8] == h[4..8] && b[8..10] == h[8..10] && b[12..20] == h[12..20];
  }

  lemma SliceOfSlice(b: bytes, p: nat, s: nat, x: bytes, lo: nat, hi: nat)
    requires p <= s <= |b| && b[p..s] == x && lo <= hi <= |x|
    ensures p + hi <= |b| && b[p + lo..p + hi] == x[lo..hi]
  {
    forall i | lo <= i < hi
      ensures b[p + i] == x[i]
    {
      assert b[p..s][i] == b[p + i];
    }
  }

  /** Provider i is its number in three bytes and its address, if that is shown. */
  lemma ProviderLayout(c: Card, o: Options, l: SidLists, i: nat)
    requires Sized(l) && |Encode(c, o, l)| <= CC_MAXMSGSIZE && i < |c.providers|
    ensures var b := Encode(c, o, l); var at := (if o.ext then 23 else 21) + 7 * i;
            && at + 7 <= |b|
            && b[at..at + 7] == BigEndian(3, c.providers[i].prov) + (if o.au then c.providers[i].sa else Zeros(4))
  {
    hide Encode, Head, Flatten, GoodBytes, BadBytes, NodesSent, BigEndian, LayoutOf;
    FittingCounts(c, o, l);
    PartsInPlace(c, o, l);
    var b := Encode(c, o, l);
    var y := LayoutOf(b, o.ext);
    PartsStart(b, o.ext);
    FlattenAt(ProviderRecords(c, o.au), 7, i);
    SliceOfSlice(b, y.p, y.s, Flatten(ProviderRecords(c, o.au)), i * 7, i * 7 + 7);
  }

  lemma PartsStart(b: bytes, ext: bool)
    requires |b| >= if ext then 23 else 21
    ensures var y := LayoutOf(b, ext); y.p == (if ext then 23 else 21) && y.s == y.p + b[20] as int * 7
    ensures var y := LayoutOf(b, ext); y.n == y.s + if ext then 2 * (b[21] as int + b[22] as int) else 0
  {
  }

  lemma NodesStart(c: Card, o: Options, l: SidLists) returns (n: nat)
    requires Sized(l) && |Encode(c, o, l)| <= CC_MAXMSGSIZE
    ensures n == (if o.ext then 23 + 2 * (|l.good| + |l.bad|) else 21) + 7 * |c.providers|
    ensures var b := Encode(c, o, l);
            n < |b| && b[n] == |NodesSent(c, o)| && b[n + 1..|b|] == Flatten(NodesSent(c, o))
  {
    hide Encode, Head, Flatten, GoodBytes, BadBytes, NodesSent, BigEndian, LayoutOf, ProviderRecords;
    FittingCounts(c, o, l);
    PartsInPlace(c, o, l);
    MessageLayout(c, o, l);
    var b := Encode(c, o, l);
    PartsStart(b, o.ext);
    n := LayoutOf(b, o.ext).n;
  }

  /** Node i stands behind the count that is next after the sids. */
  lemma NodeLayout(c: Card, o: Options, l: SidLists, i: nat)
    requires Sized(l) && |Encode(c, o, l)| <= CC_MAXMSGSIZE && i < |NodesSent(c, o)|
    ensures var b := Encode(c, o, l);
            var n := (if o.ext then 23 + 2 * (|l.good| + |l.bad|) else 21) + 7 * |c.providers|;
            && n + 9 + 8 * i <= |b| && b[n] == |NodesSent(c, o)| && b[n + 1 + 8 * i..n + 9 + 8 * i] == NodesSent(c, o)[i]
  {
    hide Encode, Flatten, NodesSent;
    var n := NodesStart(c, o, l);
    var b := Encode(c, o, l);
    FlattenAt(NodesSent(c, o), 8, i);
    SliceOfSlice(b, n + 1, |b|, Flatten(NodesSent(c, o)), i * 8, i * 8 + 8);
  }

  /** A message can bring repeated providers: a Betacrypt card without any has one when it has
      been read, because 0xFFFFFF stands for the position. */
  lemma BetacryptRepeats(c: Card, o: Options, l: SidLists)
    requires Sized(l) && |Encode(c, o, l)| <= CC_MAXMSGSIZE && Betacrypt(c.caid)
    requires |c.providers| == 2 && c.providers[0].prov == 1 && c.providers[1].prov == 0xFFFFFF
    ensures DistinctProviders(c.providers)
    ensures var r := Decode(Encode(c, o, l), o.ext); r.Some? && !DistinctProviders(r.value.providers)
  {
    hide Encode, Decode, Betacrypt, NodesSent;
    DecodeOfEncode(c, o, l);
    var ps := CanonicalProviders(c, o.au);
    assert ps[0].prov == 1 && ps[1].prov == 1;
  }
}
