/** push_out filling its zeroed buffer through a moving offset, and push_in reading one
    (oscam/module-camd35-cacheex.c:1151-1232, 1235-1358, oscam/module-cccam-cacheex.c:1143-1226,
    1285-1425). */
module PushBuffers {
  import opened Bytes
  import opened CardWire
  import opened CardBuffers
  import opened PushWire

  /** The first 20 bytes */
  method PutHead(f: Framing, er: Request, rc: byte, buf: array<byte>)
    requires buf.Length >= 20 && BlankFrom(buf, 0)
    modifies buf
    ensures buf[..20] == PushHead(f, er, rc) && BlankFrom(buf, 20)
  {
    hide BigEndian, CycleByte, Parity;
    if f == Camd35 {
      var size: int := 16 + 4 + 16 + 1 + (|er.nodes| + 1) * 8;
      Put(buf, 0, [0x3f, size % 256, size / 256 % 256, rc]);
      Skipped(buf, 4, 4);
      Put(buf, 8, BigEndian(2, er.srvid));
      Put(buf, 10, BigEndian(2, er.caid));
      Put(buf, 12, BigEndian(4, er.prid));
      Skipped(buf, 16, 2);
    } else {
      Put(buf, 0, BigEndian(2, er.caid));
      Put(buf, 2, BigEndian(4, er.prid));
      Skipped(buf, 6, 4);
      Put(buf, 10, BigEndian(2, er.srvid));
      Put(buf, 12, [16 + 4 + 16, 0, rc]);
      Skipped(buf, 15, 3);
    }
    Put(buf, 18, [CycleByte(er.cycleTime, er.nextCycle), Parity(er.ecm0)]);
  }

  /** The loop over the other nodes */
  method PutNodeList(buf: array<byte>, start: nat, nodes: seq<NodeId>)
    requires start + |nodes| * 8 == buf.Length
    modifies buf
    ensures buf[..] == old(buf[..start]) + Flatten(nodes)
  {
    hide Flatten;
    ghost var before := buf[..start];
    var ofs := start;
    NoRecords();
    for i := 0 to |nodes|
      invariant ofs == start + i * 8 <= buf.Length
      invariant buf[..ofs] == before + Flatten(nodes[..i])
    {
      assert nodes[..i + 1] == nodes[..i] + [nodes[i]];
      Appended(nodes[..i], nodes[i]);
      Put(buf, ofs, nodes[i]);
      ofs := ofs + 8;
    }
    assert nodes[..|nodes|] == nodes;
    assert buf[..ofs] == buf[..];
  }

  lemma Reassociated(h: bytes, a: bytes, b: bytes, c: bytes, d: bytes, e: bytes, f: bytes)
    ensures h + a + b + c + d + e + f == h + (a + b + c + d + e + f)
  {
  }

  /** push_out up to sending */
  method WritePush(f: Framing, er: Request, own: NodeId) returns (msg: Option<bytes>)
    ensures msg == PushOut(f, er, own)
  {
    hide PushHead, Flatten, BigEndian, SwapBytes;
    var rc: int := SentRc(er.rc);
    if !Pushable(rc) {
      return None;
    }
    var size := 16 + 4 + 16 + 1 + (|er.nodes| + 1) * 8;
    var buf := new byte[size + 20](_ => 0);
    PutHead(f, er, rc, buf);
    ghost var h := PushHead(f, er, rc);
    var ofs := 20;
    Put(buf, ofs, er.md5);
    ofs := ofs + 16;
    assert buf[..ofs] == h + er.md5;
    ghost var hash := BigEndian(4, SwapBytes(er.cspHash));
    Put(buf, ofs, BigEndian(4, SwapBytes(er.cspHash)));
    ofs := ofs + 4;
    assert buf[..ofs] == h + er.md5 + hash;
    Put(buf, ofs, er.cw);
    ofs := ofs + 16;
    Put(buf, ofs, [(|er.nodes| + 1) % 256]);
    ofs := ofs + 1;
    assert buf[..ofs] == h + er.md5 + hash + er.cw + [(|er.nodes| + 1) % 256];
    Put(buf, ofs, own);
    ofs := ofs + 8;
    PutNodeList(buf, ofs, er.nodes);
    Reassociated(h, er.md5, hash, er.cw, [(|er.nodes| + 1) % 256], own, Flatten(er.nodes));
    msg := Some(buf[..]);
  }

  /** push_in up to handing the request on; the buffer has room for the longest list it takes */
  method ReadPush(f: Framing, buf: array<byte>, maxHop: Int8, peer: Option<NodeId>, passes: bool)
    returns (r: Option<Accepted>)
    requires buf.Length >= 57 && buf.Length >= 57 + maxHop * 8
    ensures r == PushIn(f, buf[..], maxHop, peer, passes)
  {
    hide Chunks, DecodedSid, HeadWord, SwapBytes, ReadCycle, Parity;
    var rc := ToInt8(buf[RcAt(f)]);
    if !Pushable(rc) {
      return None;
    }
    var size: int := buf[SizeAt(f)] as int + buf[SizeAt(f) + 1] as int * 256;
    if (f == Camd35 && size < 36) || (f == Cccam && size != 36) {
      return None;
    }
    if !passes {
      return None;
    }
    var ofs := 56;
    var nodes: seq<NodeId> := [];
    if f == Cccam || size > 36 {
      var count: int := buf[ofs];
      ofs := ofs + 1;
      if count > maxHop {
        return None;
      }
      nodes := TakeNodes(buf[..], ofs, count);
    }
    var known := peer;
    if f == Camd35 && nodes != [] && known.None? {
      known := Some(nodes[0]);
    }
    if nodes == [] {
      if known.Some? {
        nodes := [known.value];
      } else if f == Cccam {
        nodes := [Zeros(8)];
      }
    }
    r := Some(Accepted(ReadRequest(f, buf[..], nodes), known));
  }
}
