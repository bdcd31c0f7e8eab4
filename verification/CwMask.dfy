/** The control-word mask of a normal-mode CCcam session (oscam/module-cccam.c:150-205). */
module CwMask {
  import opened Bytes

  type CardId = Word

  /** Byte j of the node id read backwards. */
  function Reversed(node: NodeId, j: nat): byte
    requires j < 8
  {
    node[7 - j]
  }

  /** The node-id byte used at position i: whole bytes at even positions, bytes shifted
      by half at odd ones. */
  function NodeByte(node: NodeId, i: nat): byte
    requires i < 16
  {
    var j := i / 2;
    if i % 2 == 0 then Reversed(node, j)
    else if i != 15 then Reversed(node, j) / 16 + (Reversed(node, j + 1) % 16) * 16
    else Reversed(node, j) / 16
  }

  /** cardid >> (2 * i), cut to a byte. */
  function CardByte(id: CardId, i: nat): byte {
    (id / Pow2(2 * i)) % 256
  }

  /** One byte as cc_cw_crypt computes it: node id, complement at odd positions, card id. */
  function CwCryptByte(x: byte, node: NodeId, id: CardId, i: nat): byte
    requires i < 16
  {
    var t := Xor(x, NodeByte(node, i));
    Xor(CardByte(id, i), if i % 2 == 1 then 255 - t else t)
  }

  function CwCrypt(cw: ControlWord, node: NodeId, id: CardId): ControlWord {
    seq(16, i requires 0 <= i < 16 => CwCryptByte(cw[i], node, id, i))
  }

  /** The string that CwCrypt adds to every control word. */
  function Mask(node: NodeId, id: CardId): ControlWord {
    CwCrypt(Zeros(16), node, id)
  }

  lemma {:induction false} ComplementIsXor(w: nat, t: nat)
    requires t < Pow2(w)
    ensures XorBits(w, t, Pow2(w) - 1) == Pow2(w) - 1 - t
  {
    if w == 0 {
    } else {
      var ones := Pow2(w) - 1;
      assert ones / 2 == Pow2(w - 1) - 1 && ones % 2 == 1;
      ComplementIsXor(w - 1, t / 2);
      XorHalves(w, t, ones);
    }
  }

  /** Masking is an exclusive or with a constant byte. */
  lemma CwCryptByteIsXor(x: byte, node: NodeId, id: CardId, i: nat)
    requires i < 16
    ensures CwCryptByte(x, node, id, i) == Xor(x, CwCryptByte(0, node, id, i))
  {
    var n, c := NodeByte(node, i), CardByte(id, i);
    var f: byte := if i % 2 == 1 then 255 else 0;
    FlipIsXor(Xor(x, n), i);
    FlipIsXor(Xor(0, n), i);
    ThreeXors(x, n, f, c);
  }

  lemma FlipIsXor(t: byte, i: nat)
    ensures (if i % 2 == 1 then 255 - t else t) == Xor(t, if i % 2 == 1 then 255 else 0)
  {
    assert Pow2(8) == 256;
    ComplementIsXor(8, t);
    XorLaws(t, 0, 0);
  }

  lemma ThreeXors(x: byte, n: byte, f: byte, c: byte)
    ensures Xor(c, Xor(Xor(x, n), f)) == Xor(x, Xor(c, Xor(Xor(0, n), f)))
  {
    hide Xor;
    XorLaws(0, n, 0);
    XorLaws(n, 0, 0);
    XorLaws(x, n, f);
    XorLaws(c, x, Xor(n, f));
    XorLaws(x, c, Xor(n, f));
  }

  /** Masking twice gives the control word back: the client's step undoes the server's. */
  lemma UnmaskUndoesMask(cw: ControlWord, node: NodeId, id: CardId)
    ensures CwCrypt(CwCrypt(cw, node, id), node, id) == cw
  {
    hide Xor, CwCryptByte;
    forall i | 0 <= i < 16
      ensures CwCrypt(CwCrypt(cw, node, id), node, id)[i] == cw[i]
    {
      CwCryptByteIsXor(cw[i], node, id, i);
      CwCryptByteIsXor(CwCrypt(cw, node, id)[i], node, id, i);
      XorCancels(cw[i], CwCryptByte(0, node, id, i));
    }
  }

  lemma {:induction false} XorAllOfMasked(a: bytes, b: bytes, c: bytes)
    requires |a| == |b| == |c| && forall i :: 0 <= i < |a| ==> c[i] == Xor(a[i], b[i])
    ensures XorAll(c) == Xor(XorAll(a), XorAll(b))
  {
    hide Xor;
    if a == [] {
      XorLaws(0, 0, 0);
    } else {
      var k := |a| - 1;
      XorAllOfMasked(a[..k], b[..k], c[..k]);
      var p, q := XorAll(a[..k]), XorAll(b[..k]);
      XorLaws(p, q, Xor(a[k], b[k]));
      XorLaws(q, a[k], b[k]);
      XorLaws(a[k], q, b[k]);
      XorLaws(p, a[k], Xor(q, b[k]));
    }
  }

  /** What a whole masked word contributes to a cipher's `state` differs from what the
      plain word contributes by a constant of the pair (node, card). */
  lemma {:induction false} MaskShiftsState(cw: ControlWord, node: NodeId, id: CardId)
    ensures XorAll(CwCrypt(cw, node, id)) == Xor(XorAll(cw), XorAll(Mask(node, id)))
  {
    hide Xor, CwCryptByte;
    forall i | 0 <= i < 16
      ensures CwCrypt(cw, node, id)[i] == Xor(cw[i], Mask(node, id)[i])
    {
      CwCryptByteIsXor(cw[i], node, id, i);
    }
    XorAllOfMasked(cw, Mask(node, id), CwCrypt(cw, node, id));
  }

  // What the mask is made of

  /** Bit n of the node id read as a number, most significant byte first; it ends after 64 bits. */
  function NodeBit(node: NodeId, n: nat): nat {
    if n < 64 then Bit(node[7 - n / 8], n % 8) else 0
  }

  lemma NibbleUp(lo: byte, hi: byte, m: nat)
    requires m < 8
    ensures Bit(lo / 16 + (hi % 16) * 16, m) == if m < 4 then Bit(lo, m + 4) else Bit(hi, m - 4)
    ensures Bit(lo / 16, m) == if m < 4 then Bit(lo, m + 4) else 0
  {
    FourDown(lo, m);
    FourDown(hi, m - 4 + 4);
    Stacked(lo / 16, hi % 16, m);
    Stacked(lo / 16, 0, m);
    NoBits(m - 4 + 4);
    if m >= 4 {
      NoBits(m - 4);
      LowNibble(hi, m - 4);
    }
  }

  lemma {:induction false} FourDown(x: nat, i: nat)
    ensures Bit(x / 16, i) == Bit(x, i + 4)
  {
    assert x / 16 == x / 2 / 2 / 2 / 2;
    assert Bit(x, i + 4) == Bit(x / 2, i + 3) == Bit(x / 2 / 2, i + 2) == Bit(x / 2 / 2 / 2, i + 1);
  }

  lemma {:induction false} Stacked(lo: nat, hi: nat, m: nat)
    requires lo < 16
    ensures Bit(lo + hi * 16, m) == if m < 4 then Bit(lo, m) else Bit(hi, m - 4)
  {
    var x := lo + hi * 16;
    if m < 4 {
      assert Pow2(4) == 16;
      AboveIsIgnored(4, lo, hi, m);
    } else {
      FourDown(x, m - 4);
    }
  }

  lemma {:induction false} LowNibble(x: byte, i: nat)
    requires i < 4
    ensures Bit(x % 16, i) == Bit(x, i)
  {
    assert Pow2(4) == 16 && x == x % 16 + 16 * (x / 16);
    AboveIsIgnored(4, x % 16, x / 16, i);
  }

  lemma {:induction false} NodeByteBit(node: NodeId, i: nat, m: nat)
    requires i < 16 && m < 8
    ensures Bit(NodeByte(node, i), m) == NodeBit(node, 4 * i + m)
  {
    hide Bit;
    var j := i / 2;
    if i % 2 == 1 {
      NibbleUp(Reversed(node, j), if i != 15 then Reversed(node, j + 1) else 0, m);
    }
  }

  lemma {:induction false} CardByteBit(id: nat, i: nat, m: nat)
    requires m < 8
    ensures Bit((id / Pow2(i)) % 256, m) == Bit(id, i + m)
  {
    if i == 0 {
      assert Pow2(8) == 256 && id == id % 256 + 256 * (id / 256);
      AboveIsIgnored(8, id % 256, id / 256, m);
    } else {
      HalfFirst(id, Pow2(i - 1));
      CardByteBit(id / 2, i - 1, m);
    }
  }

  lemma HalfFirst(x: nat, p: nat)
    requires p > 0
    ensures x / (2 * p) == x / 2 / p
  {
    var q, r := x / 2 / p, x / 2 % p;
    assert x / 2 == p * q + r;
    assert x == (2 * p) * q + (2 * r + x % 2) by {
      assert 2 * (p * q) == (2 * p) * q;
    }
    QuotientIs(x, 2 * p, q, 2 * r + x % 2);
  }

  lemma QuotientIs(x: nat, d: nat, q: nat, r: nat)
    requires r < d && x == d * q + r
    ensures x / d == q
  {
    StepsApart(d, x / d, q);
    StepsApart(d, q, x / d);
    assert x == d * (x / d) + x % d;
  }

  lemma StepsApart(d: nat, a: nat, b: nat)
    ensures a < b ==> d * b >= d * a + d
  {
    if a < b {
      assert d * b == d * (a + 1) + d * (b - a - 1);
    }
  }

  lemma MaskIs(node: NodeId, id: CardId, i: nat)
    requires i < 16
    ensures Mask(node, id)[i] == Xor(CardByte(id, i), if i % 2 == 1 then 255 - NodeByte(node, i) else NodeByte(node, i))
  {
    hide Xor, NodeByte, CardByte;
    XorLaws(0, NodeByte(node, i), 0);
    XorLaws(NodeByte(node, i), 0, 0);
  }

  lemma EightBits()
    ensures Pow2(8) == 256
  {
  }

  lemma ComplementBit(x: byte, m: nat)
    requires m < 8
    ensures Bit(255 - x, m) == 1 - Bit(x, m)
  {
    hide Bit, XorBits, Pow2;
    EightBits();
    ComplementIsXor(8, x);
    BitOfXor(8, x, 255, m);
    AllBits(m);
  }

  lemma Parity(n: nat, c: nat, i: nat)
    requires n <= 1
    ensures (c + if i % 2 == 1 then 1 - n else n) % 2 == (n + c + i) % 2
  {
    assert i == 2 * (i / 2) + i % 2;
  }

  /** The mask, bit by bit: at position i the node id read as a number is moved by 4 * i bits, the card
      id by 2 * i, and every second byte is complemented. */
  lemma {:induction false} MaskBit(node: NodeId, id: CardId, i: nat, m: nat)
    requires i < 16 && m < 8
    ensures Bit(Mask(node, id)[i], m) == (NodeBit(node, 4 * i + m) + Bit(id, 2 * i + m) + i) % 2
  {
    hide Bit, XorBits, NodeByte, NodeBit, Mask, Pow2;
    MaskIs(node, id, i);
    var n := NodeByte(node, i);
    NodeByteBit(node, i, m);
    CardByteBit(id, 2 * i, m);
    ComplementBit(n, m);
    BitOfXor(8, CardByte(id, i), if i % 2 == 1 then 255 - n else n, m);
    Parity(Bit(n, m), Bit(id, 2 * i + m), i);
  }

  lemma {:induction false} AllBits(m: nat)
    requires m < 8
    ensures Bit(255, m) == 1
  {
    assert Pow2(8) == 256;
    OnesOnly(8, m);
  }

  lemma {:induction false} OnesOnly(w: nat, m: nat)
    requires m < w
    ensures Bit(Pow2(w) - 1, m) == 1
  {
    assert (Pow2(w) - 1) / 2 == Pow2(w - 1) - 1;
    if m > 0 {
      OnesOnly(w - 1, m - 1);
    }
  }

  lemma MaskOfZeroNode(id: CardId, i: nat)
    requires i < 16 && i % 2 == 0
    ensures Mask(Zeros(8), id)[i] == CardByte(id, i)
  {
    hide Xor, Mask, CardByte;
    MaskIs(Zeros(8), id, i);
    XorLaws(CardByte(id, i), 0, 0);
  }

  lemma MaskOfZeroCard(node: NodeId, k: nat)
    requires k < 8
    ensures Mask(node, 0)[2 * k] == node[7 - k]
  {
    hide Xor, Mask;
    MaskIs(node, 0, 2 * k);
    XorLaws(0, node[7 - k], 0);
    XorLaws(node[7 - k], 0, 0);
  }

  /** A zero node leaves the card id to be read at positions 0, 4, 8 and 12, lowest byte first, and a zero
      card leaves the node id at the even positions, last byte first. */
  lemma {:induction false} MaskSpells(node: NodeId, id: CardId)
    ensures var mask := Mask(Zeros(8), id); [mask[12], mask[8], mask[4], mask[0]] == BigEndian(4, id)
    ensures forall k :: 0 <= k < 8 ==> Mask(node, 0)[2 * k] == node[7 - k]
  {
    hide BigEndian, Mask, CardByte;
    MaskOfZeroNode(id, 0);
    MaskOfZeroNode(id, 4);
    MaskOfZeroNode(id, 8);
    MaskOfZeroNode(id, 12);
    FourBytes(id);
    forall k | 0 <= k < 8
      ensures Mask(node, 0)[2 * k] == node[7 - k]
    {
      MaskOfZeroCard(node, k);
    }
  }

  lemma {:induction false} FourBytes(id: CardId)
    ensures [CardByte(id, 12), CardByte(id, 8), CardByte(id, 4), CardByte(id, 0)] == BigEndian(4, id)
  {
    WordSizes();
    Pow2Byte(0);
    var a, b, c := id / 0x100, id / 0x1_0000, id / 0x100_0000;
    assert b == a / 256 && c == b / 256;
    assert BigEndian(1, c) == BigEndian(0, c / 256) + [c % 256];
    assert BigEndian(2, b) == BigEndian(1, c) + [b % 256];
    assert BigEndian(3, a) == BigEndian(2, b) + [a % 256];
  }

  /** cc_cw_crypt on the 16 bytes at buf + off */
  method CwCryptInPlace(buf: array<byte>, off: nat, node: NodeId, id: CardId)
    requires off + 16 <= buf.Length
    modifies buf
    ensures buf[..] == old(buf[..off]) + CwCrypt(old(buf[off..off + 16]), node, id) + old(buf[off + 16..])
  {
    hide CwCryptByte, Xor;
    ghost var was := buf[..];
    for i := 0 to 16
      invariant forall k :: 0 <= k < buf.Length ==>
        buf[k] == if off <= k < off + i then CwCryptByte(was[k], node, id, k - off) else was[k]
    {
      buf[off + i] := CwCryptStep(buf[off + i], node, id, i);
    }
    assert buf[..] == was[..off] + CwCrypt(was[off..off + 16], node, id) + was[off + 16..];
  }

  method CwCryptStep(x: byte, node: NodeId, id: CardId, i: nat) returns (y: byte)
    requires i < 16
    ensures y == CwCryptByte(x, node, id, i)
  {
    var n: byte;
    if i % 2 == 1 {
      if i != 15 {
        n := Reversed(node, i / 2) / 16 + (Reversed(node, i / 2 + 1) % 16) * 16;
      } else {
        n := Reversed(node, i / 2) / 16;
      }
    } else {
      n := Reversed(node, i / 2);
    }
    var tmp := Xor(x, n);
    if i % 2 == 1 {
      tmp := 255 - tmp;
    }
    y := Xor(CardByte(id, i), tmp);
  }
}
