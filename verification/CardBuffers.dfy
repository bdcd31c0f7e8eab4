/** write_card filling a fixed buffer by offset, with its counters in the buffer, and read_card
    over a moving offset (oscam/module-cccshare.c:126-266, oscam/module-cccam.c:2454-2604). */
module CardBuffers {
  import opened Bytes
  import opened Cards
  import opened CardWire

  // Lemmas about one more record

  lemma NoRecords()
    ensures Flatten([]) == [] && Chunks([], 7) == [] && Chunks([], 2) == [] && Chunks([], 8) == []
  {
  }

  lemma {:induction false} Appended(records: seq<bytes>, x: bytes)
    ensures Flatten(records + [x]) == Flatten(records) + x
  {
    assert (records + [x])[..|records|] == records;
  }

  lemma CountUp(n: nat)
    ensures Add8(n % 256, 1) == (n + 1) % 256
  {
    assert n == 256 * (n / 256) + n % 256;
  }

  lemma {:induction false} SidRecordsSnoc(sids: seq<Short>, s: Short)
    ensures SidRecords(sids + [s]) == SidRecords(sids) + [BigEndian(2, s)]
  {
    hide BigEndian;
  }

  lemma {:induction false} ChunksSnoc(b: bytes, p: nat, o: nat, size: nat)
    requires size > 0 && p <= o && o + size <= |b|
    ensures Chunks(b[p..o + size], size) == Chunks(b[p..o], size) + [b[o..o + size]]
  {
    var x := b[p..o + size];
    assert x[..|x| - size] == b[p..o] && x[|x| - size..] == b[o..o + size];
  }

  // Writing

  /** memcpy to buf + ofs */
  method Put(buf: array<byte>, ofs: nat, x: bytes)
    requires ofs + |x| <= buf.Length
    modifies buf
    ensures buf[..ofs + |x|] == old(buf[..ofs]) + x
    ensures forall i :: ofs + |x| <= i < buf.Length ==> buf[i] == old(buf[i])
  {
    ghost var before := buf[..ofs];
    for k := 0 to |x|
      invariant buf[..ofs] == before
      invariant buf[ofs..ofs + k] == x[..k]
      invariant forall i :: ofs + k <= i < buf.Length ==> buf[i] == old(buf[i])
    {
      buf[ofs + k] := x[k];
      assert buf[ofs..ofs + k] == x[..k];
      assert buf[ofs..ofs + k + 1] == buf[ofs..ofs + k] + [x[k]];
    }
    assert x[..|x|] == x;
    assert buf[..ofs + |x|] == buf[..ofs] + buf[ofs..ofs + |x|];
  }

  ghost predicate BlankFrom(buf: array<byte>, ofs: nat)
    reads buf
  {
    forall i :: ofs <= i < buf.Length ==> buf[i] == 0
  }

  lemma Skipped(buf: array<byte>, ofs: nat, n: nat)
    requires ofs + n <= buf.Length && BlankFrom(buf, ofs)
    ensures buf[..ofs + n] == buf[..ofs] + Zeros(n)
  {
    assert buf[..ofs + n] == buf[..ofs] + buf[ofs..ofs + n];
    assert buf[ofs..ofs + n] == Zeros(n);
  }

  /** What the first bytes of a buffer are after n records have been counted. */
  ghost function CountedTo(before: bytes, at: nat, n: byte, records: seq<bytes>): bytes
    requires at < |before|
  {
    before[at := n] + Flatten(records)
  }

  lemma {:induction false} CountedOneMore(before: bytes, at: nat, n: byte, m: byte, records: seq<bytes>, x: bytes)
    requires at < |before|
    ensures CountedTo(before, at, n, records)[at := m] + x == CountedTo(before, at, m, records + [x])
    ensures CountedTo(before, at, m, records + [x])[at] == m
  {
    hide Flatten;
    Appended(records, x);
    assert (before[at := n] + Flatten(records))[at := m] == before[at := m] + Flatten(records);
  }

  lemma Uncounted(before: bytes, at: nat)
    requires at < |before| && before[at] == 0
    ensures CountedTo(before, at, 0, []) == before
  {
  }

  /** Every loop of write_card puts a record at the offset and counts it in a byte further up. */
  method PutCounted(buf: array<byte>, ofs: nat, at: nat, x: bytes, ghost before: bytes, ghost records: seq<bytes>)
    requires at < |before| <= ofs && ofs + |x| <= buf.Length && BlankFrom(buf, ofs)
    requires buf[..ofs] == CountedTo(before, at, buf[at], records)
    modifies buf
    ensures buf[at] == Add8(old(buf[at]), 1) && BlankFrom(buf, ofs + |x|)
    ensures buf[..ofs + |x|] == CountedTo(before, at, buf[at], records + [x])
  {
    hide Add8, CountedTo;
    Put(buf, ofs, x);
    ghost var put := buf[..ofs + |x|];
    ghost var n := buf[at];
    assert n == put[at] == old(buf[..ofs])[at];
    CountedOneMore(before, at, n, Add8(n, 1), records, x);
    buf[at] := Add8(buf[at], 1);
    assert buf[..ofs + |x|] == old(buf[..ofs])[at := Add8(n, 1)] + x;
  }

  /** The provider loop: seven bytes each, the address only if the client may see it */
  method PutProviders(buf: array<byte>, start: nat, c: Card, au: bool) returns (ofs: nat)
    requires 20 < start && start + |c.providers| * 7 <= buf.Length && buf[20] == 0 && BlankFrom(buf, start)
    modifies buf
    ensures ofs == start + |c.providers| * 7 && BlankFrom(buf, ofs)
    ensures buf[..ofs] == CountedTo(old(buf[..start]), 20, |c.providers| % 256, ProviderRecords(c, au))
    ensures forall k :: 20 < k < start ==> buf[k] == old(buf[k])
  {
    hide Flatten, ProviderBytes, Add8, CountedTo;
    ghost var before := buf[..start];
    Uncounted(before, 20);
    ofs := start;
    for i := 0 to |c.providers|
      invariant ofs == start + i * 7 && BlankFrom(buf, ofs) && buf[20] == i % 256
      invariant buf[..ofs] == CountedTo(before, 20, i % 256, ProviderRecords(c, au)[..i])
    {
      var record := ProviderBytes(c.providers[i], au);
      ghost var records := ProviderRecords(c, au);
      assert records[..i + 1] == records[..i] + [record];
      CountUp(i);
      PutCounted(buf, ofs, 20, record, before, records[..i]);
      ofs := ofs + 7;
    }
    assert ProviderRecords(c, au)[..|c.providers|] == ProviderRecords(c, au);
    CountedElsewhere(before, 20, |c.providers| % 256, ProviderRecords(c, au));
    assert forall k :: 20 < k < start ==> buf[k] == buf[..ofs][k];
  }

  lemma CountedElsewhere(before: bytes, at: nat, n: byte, records: seq<bytes>)
    requires at < |before|
    ensures forall k :: 0 <= k < |before| && k != at ==> CountedTo(before, at, n, records)[k] == before[k]
  {
  }

  /** The sids so far are in the buffer and counted. */
  ghost predicate SidsPut(buf: array<byte>, ofs: nat, at: nat, before: bytes, sids: seq<Short>)
    requires at < |before|
    reads buf
  {
    && ofs == |before| + |sids| * 2 <= buf.Length && buf[at] as int == |sids|
    && buf[..ofs] == CountedTo(before, at, buf[at], SidRecords(sids)) && BlankFrom(buf, ofs)
  }

  method PutSid(buf: array<byte>, ofs: nat, at: nat, s: Short, ghost before: bytes, ghost sids: seq<Short>)
    returns (n: byte)
    requires at < |before| && ofs + 2 <= buf.Length && |sids| < 255 && SidsPut(buf, ofs, at, before, sids)
    modifies buf
    ensures SidsPut(buf, ofs + 2, at, before, sids + [s]) && n as int == |sids| + 1
  {
    hide SidRecords, BigEndian, CountedTo, Add8;
    SidRecordsSnoc(sids, s);
    CountUp(|sids|);
    PutCounted(buf, ofs, at, BigEndian(2, s), before, SidRecords(sids));
    n := buf[at];
  }

  /** A sid loop that stops when its counter reaches the cap */
  method PutSids(buf: array<byte>, start: nat, at: nat, sids: seq<Short>, cap: byte) returns (ofs: nat)
    requires 0 < cap < 255 && at < start && start + |Take(sids, cap)| * 2 <= buf.Length
    requires buf[at] == 0 && BlankFrom(buf, start)
    modifies buf
    ensures SidsPut(buf, ofs, at, old(buf[..start]), Take(sids, cap))
  {
    hide SidsPut;
    ghost var before := buf[..start];
    NoSidsPut(buf, start, at);
    ofs := start;
    for i := 0 to |sids|
      invariant i < cap && ofs == start + i * 2 && SidsPut(buf, ofs, at, before, sids[..i])
    {
      assert sids[..i + 1] == sids[..i] + [sids[i]];
      var n := PutSid(buf, ofs, at, sids[i], before, sids[..i]);
      ofs := ofs + 2;
      if n >= cap {
        assert Take(sids, cap) == sids[..i + 1];
        return;
      }
    }
    assert sids[..|sids|] == sids == Take(sids, cap);
  }

  lemma NoSidsPut(buf: array<byte>, start: nat, at: nat)
    requires at < start <= buf.Length && buf[at] == 0 && BlankFrom(buf, start)
    ensures SidsPut(buf, start, at, buf[..start], [])
  {
    Uncounted(buf[..start], at);
    assert SidRecords([]) == [];
  }

  /** The loop over a card's own rejected sids skips temporary blocks */
  method PutLastingBadSids(buf: array<byte>, start: nat, at: nat, bad: seq<BadSid>) returns (ofs: nat)
    requires at < start && start + |Take(LastingBadSids(bad), 200)| * 2 <= buf.Length
    requires buf[at] == 0 && BlankFrom(buf, start)
    modifies buf
    ensures SidsPut(buf, ofs, at, old(buf[..start]), Take(LastingBadSids(bad), 200))
  {
    hide SidsPut, LastingBadSids;
    ghost var before, sids: seq<Short> := buf[..start], [];
    NoSidsPut(buf, start, at);
    NoneLasting();
    ofs := start;
    for i := 0 to |bad|
      invariant sids == LastingBadSids(bad[..i]) && |sids| < 200
      invariant ofs == start + |sids| * 2 && SidsPut(buf, ofs, at, before, sids)
    {
      LastingSnoc(bad, i);
      LastingGrows(bad, i + 1);
      if bad[i].blockedTill > 0 {
        continue;
      }
      var n := PutSid(buf, ofs, at, bad[i].sid, before, sids);
      sids := sids + [bad[i].sid];
      ofs := ofs + 2;
      if n >= 200 {
        assert Take(LastingBadSids(bad), 200) == sids;
        return;
      }
    }
    assert bad[..|bad|] == bad;
  }

  lemma NoneLasting()
    ensures LastingBadSids([]) == []
  {
  }

  lemma LastingSnoc(bad: seq<BadSid>, i: nat)
    requires i < |bad|
    ensures var before := LastingBadSids(bad[..i]);
            LastingBadSids(bad[..i + 1]) == if bad[i].blockedTill > 0 then before else before + [bad[i].sid]
  {
    assert bad[..i + 1][..i] == bad[..i];
  }

  lemma {:induction false} LastingGrows(bad: seq<BadSid>, i: nat)
    requires i <= |bad|
    ensures LastingBadSids(bad[..i]) <= LastingBadSids(bad)
    decreases |bad| - i
  {
    if i < |bad| {
      LastingSnoc(bad, i);
      LastingGrows(bad, i + 1);
    } else {
      assert bad[..i] == bad;
    }
  }

  /** The loop over the nodes a card came through */
  method PutNodes(buf: array<byte>, start: nat, at: nat, nodes: seq<NodeId>) returns (ofs: nat)
    requires at < start && start + |nodes| * 8 <= buf.Length && buf[at] == 0 && BlankFrom(buf, start)
    modifies buf
    ensures ofs == start + |nodes| * 8 && BlankFrom(buf, ofs) && buf[at] == |nodes| % 256
    ensures buf[..ofs] == CountedTo(old(buf[..start]), at, |nodes| % 256, nodes)
  {
    hide Flatten, Add8, CountedTo;
    ghost var before := buf[..start];
    Uncounted(before, at);
    ofs := start;
    for i := 0 to |nodes|
      invariant ofs == start + i * 8 && BlankFrom(buf, ofs) && buf[at] == i % 256
      invariant buf[..ofs] == CountedTo(before, at, i % 256, nodes[..i])
    {
      assert nodes[..i + 1] == nodes[..i] + [nodes[i]];
      CountUp(i);
      PutCounted(buf, ofs, at, nodes[i], before, nodes[..i]);
      ofs := ofs + 8;
    }
    assert nodes[..|nodes|] == nodes;
  }

  /** memset */
  method Clear(buf: array<byte>)
    modifies buf
    ensures BlankFrom(buf, 0)
  {
    forall i | 0 <= i < buf.Length {
      buf[i] := 0;
    }
  }

  /** The part before the first record, with its counters still 0 */
  ghost function HeadUncounted(c: Card, o: Options): (r: bytes)
    ensures |r| == if o.ext then 23 else 21
  {
    BigEndian(4, c.id) + BigEndian(4, c.remoteId) + BigEndian(2, c.caid) + [c.hop, c.reshare]
    + (if o.au then c.serial else Zeros(8)) + Zeros(if o.ext then 3 else 1)
  }

  method PutFront(buf: array<byte>, c: Card, o: Options) returns (ofs: nat)
    requires buf.Length >= 23 && BlankFrom(buf, 0)
    modifies buf
    ensures ofs == (if o.ext then 23 else 21) && buf[..ofs] == HeadUncounted(c, o) && BlankFrom(buf, 20)
  {
    hide BigEndian;
    Put(buf, 0, BigEndian(4, c.id));
    Put(buf, 4, BigEndian(4, c.remoteId));
    Put(buf, 8, BigEndian(2, c.caid));
    Put(buf, 10, [c.hop, c.reshare]);
    if o.au {
      Put(buf, 12, c.serial);
    } else {
      Skipped(buf, 12, 8);
    }
    Skipped(buf, 20, if o.ext then 3 else 1);
    ofs := if o.ext then 23 else 21;
  }

  /** The sids, if the client knows them */
  method PutSidLists(buf: array<byte>, start: nat, c: Card, o: Options, tableGood: seq<Short>, tableBad: seq<Short>)
    returns (ofs: nat)
    requires o.ext ==> 22 < start && buf.Length > 22 && buf[21] == 0 && buf[22] == 0
    requires var l := ListsFor(c, tableGood, tableBad);
             start + (if o.ext then (|l.good| + |l.bad|) * 2 else 0) <= buf.Length && BlankFrom(buf, start)
    modifies buf
    ensures var l := ListsFor(c, tableGood, tableBad);
            && ofs == start + (if o.ext then (|l.good| + |l.bad|) * 2 else 0) && BlankFrom(buf, ofs)
            && buf[..ofs] == if o.ext then CountedTo(CountedTo(old(buf[..start]), 21, |l.good|, SidRecords(l.good)),
                                                     22, |l.bad|, SidRecords(l.bad))
                             else old(buf[..start])
  {
    hide SidRecords, LastingBadSids, Flatten;
    ofs := start;
    if o.ext {
      ghost var before, l := buf[..start], ListsFor(c, tableGood, tableBad);
      if c.sidtab.Some? {
        ofs := PutSids(buf, start, 21, tableGood, 240);
        assert buf[22] == buf[..ofs][22] == before[22];
        ofs := PutSids(buf, ofs, 22, tableBad, 240);
      } else {
        ofs := PutSids(buf, start, 21, GoodSids(c), 200);
        assert buf[22] == buf[..ofs][22] == before[22];
        ofs := PutLastingBadSids(buf, ofs, 22, c.badSids);
      }
    }
  }

  lemma EncodedLength(c: Card, o: Options, l: SidLists)
    requires Sized(l)
    ensures |Encode(c, o, l)|
            == (if o.ext then 23 + (|l.good| + |l.bad|) * 2 else 21) + |c.providers| * 7 + 1 + |NodesSent(c, o)| * 8
  {
    hide Flatten, ProviderRecords, SidRecords, Head;
    RecordLengths(c, o, l);
  }

  lemma CountsInside(h: bytes, p: bytes, g: bytes, b: bytes, x: byte, y: byte, z: byte)
    requires |h| == 23
    ensures ((h[20 := x] + p)[21 := y] + g)[22 := z] + b == h[20 := x][21 := y][22 := z] + p + (g + b)
  {
    assert (h[20 := x] + p)[21 := y] == h[20 := x][21 := y] + p;
    assert (h[20 := x][21 := y] + p + g)[22 := z] == h[20 := x][21 := y][22 := z] + p + g;
  }

  lemma HeadCounted(c: Card, o: Options, l: SidLists)
    requires Sized(l)
    ensures var h := HeadUncounted(c, o)[20 := |c.providers| % 256];
            Head(c, o, l) == if o.ext then h[21 := |l.good|][22 := |l.bad|] else h
  {
    hide BigEndian;
  }

  /** All before the nodes, with the counters of the loops */
  ghost function Body(c: Card, o: Options, l: SidLists): bytes
    requires Sized(l)
  {
    var front := CountedTo(HeadUncounted(c, o), 20, |c.providers| % 256, ProviderRecords(c, o.au));
    if o.ext then CountedTo(CountedTo(front, 21, |l.good|, SidRecords(l.good)), 22, |l.bad|, SidRecords(l.bad)) else front
  }

  lemma BodyIsEncoded(c: Card, o: Options, l: SidLists)
    requires Sized(l)
    ensures Body(c, o, l) == Head(c, o, l) + Flatten(ProviderRecords(c, o.au)) + (GoodBytes(l, o.ext) + BadBytes(l, o.ext))
  {
    hide Flatten, SidRecords, ProviderRecords, HeadUncounted, Head;
    HeadCounted(c, o, l);
    if o.ext {
      CountsInside(HeadUncounted(c, o), Flatten(ProviderRecords(c, o.au)), Flatten(SidRecords(l.good)),
                   Flatten(SidRecords(l.bad)), |c.providers| % 256, |l.good|, |l.bad|);
    }
  }

  method PutBody(buf: array<byte>, c: Card, o: Options, tableGood: seq<Short>, tableBad: seq<Short>) returns (ofs: nat)
    requires BlankFrom(buf, 0) && buf.Length > 22
    requires var l := ListsFor(c, tableGood, tableBad);
             (if o.ext then 23 + (|l.good| + |l.bad|) * 2 else 21) + |c.providers| * 7 <= buf.Length
    modifies buf
    ensures var l := ListsFor(c, tableGood, tableBad);
            && ofs == (if o.ext then 23 + (|l.good| + |l.bad|) * 2 else 21) + |c.providers| * 7
            && buf[..ofs] == Body(c, o, l) && BlankFrom(buf, ofs)
  {
    hide Flatten, ProviderRecords, SidRecords, HeadUncounted, ListsFor, CountedTo;
    ofs := PutFront(buf, c, o);
    ofs := PutProviders(buf, ofs, c, o.au);
    ofs := PutSidLists(buf, ofs, c, o, tableGood, tableBad);
  }

  lemma EncodeFromCounted(c: Card, o: Options, l: SidLists)
    requires Sized(l)
    ensures CountedTo(Body(c, o, l) + [0], |Body(c, o, l)|, |NodesSent(c, o)| % 256, NodesSent(c, o)) == Encode(c, o, l)
  {
    hide Flatten, Body, NodesSent, Head, ProviderRecords, GoodBytes, BadBytes;
    BodyIsEncoded(c, o, l);
    var body := Body(c, o, l);
    assert (body + [0])[|body| := |NodesSent(c, o)| % 256] == body + [|NodesSent(c, o)| % 256];
  }

  /** write_card: the message is complete and its counters are those of its parts. The buffer
      has to take it, and is cleared behind it. */
  method WriteCard(buf: array<byte>, c: Card, o: Options, tableGood: seq<Short>, tableBad: seq<Short>)
    returns (len: nat)
    requires buf.Length == CC_MAXMSGSIZE && |Encode(c, o, ListsFor(c, tableGood, tableBad))| <= CC_MAXMSGSIZE
    modifies buf
    ensures len <= buf.Length && buf[..len] == Encode(c, o, ListsFor(c, tableGood, tableBad)) && BlankFrom(buf, len)
  {
    hide Encode, ListsFor, Body, CountedTo;
    ghost var l := ListsFor(c, tableGood, tableBad);
    EncodedLength(c, o, l);
    EncodeFromCounted(c, o, l);
    Clear(buf);
    var at := PutBody(buf, c, o, tableGood, tableBad);
    Skipped(buf, at, 1);
    ghost var before := buf[..at + 1];
    assert before == Body(c, o, l) + [0];
    len := PutNodes(buf, at + 1, at, c.nodes);
    if o.own.Some? {
      CountUp(|c.nodes|);
      PutCounted(buf, len, at, o.own.value, before, c.nodes);
      len := len + 8;
    }
  }

  // Reading

  lemma ProvidersSnoc(chunks: seq<bytes>, x: bytes, beta: bool)
    requires (forall c :: c in chunks ==> |c| == 7) && |x| == 7
    ensures DecodedProviders(chunks + [x], beta) == DecodedProviders(chunks, beta) + [DecodedProvider(x, |chunks|, beta)]
  {
    hide DecodedProvider;
  }

  lemma GoodSnoc(chunks: seq<bytes>, x: bytes)
    requires (forall c :: c in chunks ==> |c| == 2) && |x| == 2
    ensures DecodedGood(chunks + [x]) == DecodedGood(chunks) + [Sid(DecodedSid(x), 0, 0)]
    ensures DecodedBad(chunks + [x]) == DecodedBad(chunks) + [BadSid(DecodedSid(x), 0, 0, 0)]
  {
    hide DecodedSid;
  }

  method TakeProviders(b: bytes, p: nat, n: nat, beta: bool) returns (providers: seq<Provider>)
    requires p + n * 7 <= |b|
    ensures providers == DecodedProviders(Chunks(b[p..p + n * 7], 7), beta)
  {
    hide Chunks, DecodedProvider;
    NoRecords();
    assert b[p..p] == [];
    providers := [];
    var offset := p;
    for i := 0 to n
      invariant offset == p + i * 7 <= |b|
      invariant |Chunks(b[p..offset], 7)| == i && providers == DecodedProviders(Chunks(b[p..offset], 7), beta)
    {
      ChunksSnoc(b, p, offset, 7);
      ProvidersSnoc(Chunks(b[p..offset], 7), b[offset..offset + 7], beta);
      providers := providers + [DecodedProvider(b[offset..offset + 7], i, beta)];
      offset := offset + 7;
    }
  }

  method TakeGood(b: bytes, p: nat, n: nat) returns (sids: seq<Sid>)
    requires p + n * 2 <= |b|
    ensures sids == DecodedGood(Chunks(b[p..p + n * 2], 2))
  {
    hide Chunks, DecodedSid;
    NoRecords();
    assert b[p..p] == [];
    sids := [];
    var offset := p;
    for i := 0 to n
      invariant offset == p + i * 2 <= |b| && sids == DecodedGood(Chunks(b[p..offset], 2))
    {
      ChunksSnoc(b, p, offset, 2);
      GoodSnoc(Chunks(b[p..offset], 2), b[offset..offset + 2]);
      sids := sids + [Sid(DecodedSid(b[offset..offset + 2]), 0, 0)];
      offset := offset + 2;
    }
  }

  method TakeBad(b: bytes, p: nat, n: nat) returns (sids: seq<BadSid>)
    requires p + n * 2 <= |b|
    ensures sids == DecodedBad(Chunks(b[p..p + n * 2], 2))
  {
    hide Chunks, DecodedSid;
    NoRecords();
    assert b[p..p] == [];
    sids := [];
    var offset := p;
    for i := 0 to n
      invariant offset == p + i * 2 <= |b| && sids == DecodedBad(Chunks(b[p..offset], 2))
    {
      ChunksSnoc(b, p, offset, 2);
      GoodSnoc(Chunks(b[p..offset], 2), b[offset..offset + 2]);
      sids := sids + [BadSid(DecodedSid(b[offset..offset + 2]), 0, 0, 0)];
      offset := offset + 2;
    }
  }

  method TakeNodes(b: bytes, p: nat, n: nat) returns (nodes: seq<NodeId>)
    requires p + n * 8 <= |b|
    ensures nodes == DecodedNodes(Chunks(b[p..p + n * 8], 8))
  {
    hide Chunks;
    NoRecords();
    assert b[p..p] == [];
    nodes := [];
    var offset := p;
    for i := 0 to n
      invariant offset == p + i * 8 <= |b| && nodes == DecodedNodes(Chunks(b[p..offset], 8))
    {
      ChunksSnoc(b, p, offset, 8);
      nodes := nodes + [b[offset..offset + 8]];
      offset := offset + 8;
    }
  }

  /** read_card, with its length checks in order */
  method ReadCard(b: bytes, ext: bool) returns (r: Option<Card>)
    ensures r == Decode(b, ext)
  {
    hide Chunks, DecodedProvider, DecodedProviders, DecodedGood, DecodedBad, DecodedNodes, DecodedSid, HeadWord, Betacrypt;
    if |b| < 21 {
      return None;
    }
    var nprov: int, nassign: int, nreject: int, offset := b[20], 0, 0, 21;
    if ext {
      if |b| < 23 {
        return None;
      }
      nassign, nreject := b[21], b[22];
      offset := offset + 2;
    }
    if |b| < offset + nprov * 7 {
      return None;
    }
    ghost var y := LayoutOf(b, ext);
    assert offset == y.p && offset + nprov * 7 == y.s;
    var caid := DecodedSid(b[8..10]);
    var providers := TakeProviders(b, offset, nprov, Betacrypt(caid));
    offset := offset + nprov * 7;
    if ext && |b| < offset + nassign * 2 + nreject * 2 {
      return None;
    }
    assert offset + nassign * 2 == y.r && offset + nassign * 2 + nreject * 2 == y.n;
    var good := TakeGood(b, offset, nassign);
    offset := offset + nassign * 2;
    var bad := TakeBad(b, offset, nreject);
    offset := offset + nreject * 2;
    var card := Card(HeadWord(b, 0), HeadWord(b, 4), caid, b[10], b[11], b[12..20], providers, good, bad, [],
                     CT_REMOTECARD, None, {}, 0, ext, 0, None);
    if |b| < offset + 1 {
      return Some(card);
    }
    var count: int := b[offset];
    offset := offset + 1;
    if |b| < offset + count * 8 {
      return None;
    }
    var nodes := TakeNodes(b, offset, count);
    r := Some(card.(nodes := nodes));
  }
}
