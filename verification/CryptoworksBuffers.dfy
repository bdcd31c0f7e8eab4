/** The Cryptoworks cipher as the C code runs it, on byte arrays that are rotated, mixed
    and swapped in place (oscam/module-emulator-cryptoworks.c:79-398). */
module CryptoworksBuffers {
  import opened Bytes
  import opened KeyWindow
  import opened Cryptoworks

  /** swap_data */
  method SwapData(d: array<byte>)
    requires d.Length == 8
    modifies d
    ensures d[..] == SwapHalves(old(d[..]))
  {
    forall i | 0 <= i < 8 {
      d[i] := if i < 4 then d[i + 4] else d[i - 4];
    }
  }

  /** One of the two 32-bit words of a key, moved one place by ls_des_key: byte off + 3
      is the lowest. */
  method TurnLeft(key: array<byte>, off: nat)
    requires off + 4 <= key.Length
    modifies key
    ensures key[..] == old(key[..off]) + Left(old(key[off..off + 4])) + old(key[off + 4..])
  {
    hide Left;
    ghost var was := key[..];
    var a, b, c, d: int := key[off], key[off + 1], key[off + 2], key[off + 3];
    d := d * 2 + (a / 8) % 2;
    c := c * 2 + (if d >= 0x100 then 1 else 0);
    d := d % 0x100;
    b := b * 2 + (if c >= 0x100 then 1 else 0);
    c := c % 0x100;
    a := (a * 2 + (if b >= 0x100 then 1 else 0)) % 0x100;
    b := b % 0x100;
    TurnedLeft(was[off], was[off + 1], was[off + 2], was[off + 3]);
    assert was[off..off + 4] == [was[off], was[off + 1], was[off + 2], was[off + 3]];
    key[off], key[off + 1], key[off + 2], key[off + 3] := a, b, c, d;
    assert key[..] == was[..off] + [a, b, c, d] + was[off + 4..];
  }

  lemma TurnedLeft(a: byte, b: byte, c: byte, d: byte)
    ensures var d2 := d * 2 + (a / 8) % 2; var c2 := c * 2 + (if d2 >= 0x100 then 1 else 0);
            var b2 := b * 2 + (if c2 >= 0x100 then 1 else 0); var a2 := a * 2 + (if b2 >= 0x100 then 1 else 0);
            [a2 % 0x100, b2 % 0x100, c2 % 0x100, d2 % 0x100] == Left([a, b, c, d])
  {
    var d2 := d * 2 + (a / 8) % 2;
    Doubled(d, (a / 8) % 2);
    var c2 := c * 2 + (if d2 >= 0x100 then 1 else 0);
    Doubled(c, d / 128);
    var b2 := b * 2 + (if c2 >= 0x100 then 1 else 0);
    Doubled(b, c / 128);
    Doubled(a, b / 128);
  }

  lemma Doubled(x: byte, bit: nat)
    requires bit <= 1
    ensures (x * 2 + bit) % 0x100 == (x % 128) * 2 + bit
    ensures x / 128 == if x * 2 + bit >= 0x100 then 1 else 0
  {
  }

  /** ls_des_key */
  method LsDesKey(key: array<byte>, rotateCounter: nat)
    requires key.Length >= 8 && rotateCounter < 16
    modifies key
    ensures key[..] == LeftsKey(old(key[..8]), LEFT_TURNS[rotateCounter]) + old(key[8..])
  {
    hide Left;
    var n := LEFT_TURNS[rotateCounter];
    ghost var was, rest := key[..8], key[8..];
    assert key[..] == LeftsKey(was, 0) + rest by { NoTurn(was); }
    for i := 0 to n
      invariant key[..] == LeftsKey(was, i) + rest
    {
      ghost var w := LeftsKey(was, i);
      assert key[4..8] == w[4..] && key[..4] == w[..4] && key[8..] == rest;
      TurnLeft(key, 4);
      assert key[0..4] == w[..4] && key[4..] == Left(w[4..]) + rest;
      TurnLeft(key, 0);
      assert key[..] == Left(w[..4]) + Left(w[4..]) + rest;
    }
  }

  /** One word of a key moved one place to the right by rs_des_key. */
  method TurnRight(k: array<byte>, off: nat)
    requires off + 4 <= k.Length
    modifies k
    ensures k[..] == old(k[..off]) + Right(old(k[off..off + 4])) + old(k[off + 4..])
  {
    hide ShiftRight;
    ghost var was := k[..];
    var c := (k[off + 3] / 16) % 2;
    k[off + 3] := ShiftRight(k[off + 3], k[off + 2], 1);
    k[off + 2] := ShiftRight(k[off + 2], k[off + 1], 1);
    k[off + 1] := ShiftRight(k[off + 1], k[off], 1);
    k[off] := k[off] / 2 + c * 128;
    assert k[..] == was[..off] + Right(was[off..off + 4]) + was[off + 4..];
  }

  /** rs_des_key */
  method RsDesKey(k: array<byte>, n: nat)
    requires k.Length >= 8
    modifies k
    ensures k[..] == RightsKey(old(k[..8]), n) + old(k[8..])
  {
    hide Right;
    ghost var was, rest := k[..8], k[8..];
    assert k[..] == RightsKey(was, 0) + rest by { NoTurn(was); }
    for i := 0 to n
      invariant k[..] == RightsKey(was, i) + rest
    {
      ghost var w := RightsKey(was, i);
      assert k[0..4] == w[..4] && k[4..] == w[4..] + rest;
      TurnRight(k, 0);
      assert k[4..8] == w[4..] && k[..4] == Right(w[..4]) && k[8..] == rest;
      TurnRight(k, 4);
      assert k[..] == Right(w[..4]) + Right(w[4..]) + rest;
    }
  }

  /** des_round, first loop */
  method ExpandHalf(d: array<byte>) returns (td: array<byte>)
    requires d.Length == 8
    ensures fresh(td) && td.Length == 8 && td[..] == Expand(d[4..], 8)
  {
    hide And, Mul8, ExpandedByte;
    td := new byte[8](_ => 0);
    for t := 0 to 8
      invariant td[..] == Expand(d[4..], t)
    {
      td[TARGETS[t]] := ExpandedByte(d[4..], t);
    }
  }

  /** des_round, second loop */
  method MixKeyBytes(td: array<byte>, k: array<byte>, ghost r: Half)
    requires td.Length == 8 && k.Length >= 8 && td != k && td[..] == Expand(r, 8)
    modifies td
    ensures td[..] == MixKeys(r, k[..8], 8)
  {
    hide And, Xor, Mul8, Add8, KeyBit, FromLeft, FromRight, Expand;
    var key := k[..8];
    var a := 0;
    for i := 0 to 8
      invariant td[..] == MixKeys(r, key, i)
      invariant a == FirstEntry7(i)
    {
      var n := if i == 0 then 1 else i - 1;
      if i % 2 == 1 {
        var first := if And(key[n], FIRST_BITS[i / 2]) != 0 then 1 else 0;
        var o := ShiftInFromRight(first, key, a, 5);
        a := a + 5;
        td[i] := Xor(td[i], o);
      } else {
        var o := ShiftInFromLeft(td[n], key, a, 6);
        a := a + 6;
        td[i] := Xor(o, td[i]) / 4;
      }
    }
  }

  /** How many table entries the steps before i have read. */
  function FirstEntry7(i: nat): nat
    requires i <= 8
  {
    if i < 8 then FirstEntry(i) else 44
  }

  method ShiftInFromLeft(first: byte, k: Oct, a: nat, n: nat) returns (o: byte)
    requires a + n <= 44
    ensures o == FromLeft(first, k, a, n)
  {
    hide KeyBit;
    o := first;
    for m := 0 to n
      invariant o == FromLeft(first, k, a, m)
    {
      o := o / 2 + KeyBit(k, a + m) * 128;
    }
  }

  method ShiftInFromRight(first: byte, k: Oct, a: nat, n: nat) returns (o: byte)
    requires a + n <= 44
    ensures o == FromRight(first, k, a, n)
  {
    hide KeyBit, Add8, Mul8;
    o := first;
    for m := 0 to n
      invariant o == FromRight(first, k, a, m)
    {
      o := Add8(Mul8(2, o), KeyBit(k, a + m));
    }
  }

  /** des_round */
  method DesRound(d: array<byte>, k: array<byte>)
    requires d.Length == 8 && k.Length >= 8 && d != k
    modifies d
    ensures d[..] == Round(old(d[..]), k[..8])
  {
    hide Xor, Substituted, MixKeys, Expand;
    ghost var was := d[..];
    var td := ExpandHalf(d);
    MixKeyBytes(td, k, d[4..]);
    ghost var t := MixKeys(was[4..], k[..8], 8);
    SBoxIndicesFit(d[4..], k[..8], 8);
    for i := 0 to 8
      invariant td[..] == t && d[..4] == Fold(was[..4], t, i) && d[4..] == was[4..]
    {
      ghost var h := d[..4];
      var x := td[i];
      d[0] := Xor(d[0], Substituted(x, AND_BIT1[i], SBOX1));
      d[1] := Xor(d[1], Substituted(x, AND_BIT2[i], SBOX2));
      d[2] := Xor(d[2], Substituted(x, AND_BIT3[i], SBOX3));
      d[3] := Xor(d[3], Substituted(x, AND_BIT4[i], SBOX4));
      assert d[..4] == [Xor(h[0], Substituted(x, AND_BIT1[i], SBOX1)), Xor(h[1], Substituted(x, AND_BIT2[i], SBOX2)),
                        Xor(h[2], Substituted(x, AND_BIT3[i], SBOX3)), Xor(h[3], Substituted(x, AND_BIT4[i], SBOX4))];
    }
    ghost var mixed: Oct := Fold(was[..4], t, 8) + was[4..];
    assert d[..] == mixed && mixed[4..] == was[4..] && mixed[..4] == Fold(was[..4], t, 8);
    SwapData(d);
  }

  /** prep_key, inner loop: the bits of one key byte, lowest first */
  method PushByte(out: array<byte>, key: bytes, r: nat, first: nat) returns (i: nat)
    requires out.Length == 8 && |key| >= 7 && r < 7
    requires first == 6 - (8 * (6 - r)) % 7 && out[..] == PushBits(key, 8 * (6 - r))
    modifies out
    ensures i == 6 - (8 * (7 - r)) % 7 && out[..] == PushBits(key, 8 * (7 - r))
  {
    hide PushBits, Add8, Mul8;
    var j, t := key[r], 8 * (6 - r);
    i := first;
    for b := 0 to 8
      invariant i == 6 - (t + b) % 7
      invariant j == Halved(key[r], b)
      invariant out[..] == PushBits(key, t + b)
    {
      BitPosition(6 - r, b);
      PushNext(key, t + b);
      out[i] := Add8(Mul8(2, out[i]), j % 2);
      j := j / 2;
      i := if i == 0 then 6 else i - 1;
    }
  }

  lemma BitPosition(q: nat, b: nat)
    requires b < 8
    ensures (8 * q + b) / 8 == q && (8 * q + b) % 8 == b
    ensures var i := 6 - (8 * q + b) % 7; (if i == 0 then 6 else i - 1) == 6 - (8 * q + b + 1) % 7
  {
    var x := 8 * q + b;
    assert x + 1 == 7 * (x / 7) + (x % 7 + 1);
  }

  /** prep_key */
  method PrepareKey(key: bytes) returns (out: array<byte>)
    requires |key| >= 7
    ensures fresh(out) && out.Length == 8 && out[..] == Prepared(key)
  {
    hide PushBits, RightsKey, Mul8;
    out := new byte[8](_ => 0);
    PushNothing(key);
    assert out[..] == Zeros(8);
    var i := 6;
    for r := 7 downto 0
      invariant i == 6 - (8 * (7 - r)) % 7
      invariant out[..] == PushBits(key, 8 * (7 - r))
    {
      i := PushByte(out, key, r, i);
    }
    FinishKey(out, key);
  }

  method FinishKey(out: array<byte>, ghost key: bytes)
    requires |key| >= 7 && out.Length == 8 && out[..] == PushBits(key, 56)
    modifies out
    ensures out[..] == Prepared(key)
  {
    hide PushBits, RightsKey, Mul8;
    ghost var d: Oct := out[..];
    out[4], out[6] := out[6], out[4];
    out[7] := Mul8(16, out[3]);
    ghost var e := Arranged(d);
    assert out[..8] == e && out[8..] == [];
    RsDesKey(out, 4);
  }

  lemma {:induction false} PushNothing(key: bytes)
    requires |key| >= 7
    ensures PushBits(key, 0) == Zeros(8)
  {
  }

  lemma PushNext(key: bytes, t: nat)
    requires |key| >= 7 && t < 56
    ensures var out := PushBits(key, t); var m := 6 - t % 7;
            PushBits(key, t + 1) == out[m := Add8(Mul8(2, out[m]), Halved(key[6 - t / 8], t % 8) % 2)]
  {
  }

  /** cw_48_key; the last eight of the 16 bytes stay zero */
  method MakeShortKey(key: FullKey, algo: byte) returns (out: array<byte>)
    ensures fresh(out) && out.Length == 16 && out[..] == ShortKey(key, algo) + Zeros(8)
  {
    var roundCounter := 7 - algo % 8;
    out := new byte[16](_ => 0);
    for j := 0 to 6
      invariant forall n :: 0 <= n < j ==> out[n] == key[16 + n]
      invariant forall n :: j <= n < 16 ==> out[n] == 0
    {
      out[j] := key[16 + j];
    }
    var i := 8;
    while i > roundCounter
      invariant roundCounter <= i <= 8
      invariant forall n :: 0 <= n < 16 ==>
                  out[n] == if i < n + 2 <= 8 then key[n + 2] else if n < 6 then key[16 + n] else 0
    {
      if i > 1 {
        out[i - 2] := key[i];
      }
      i := i - 1;
    }
  }

  /** l2_des */
  method L2Des(data: array<byte>, key: FullKey, algo: byte)
    requires data.Length == 8
    modifies data
    ensures data[..] == L2(old(data[..]), key, algo)
  {
    hide Round, LeftsKey, Prepared, ShortKey;
    var k0 := MakeShortKey(key, algo);
    var k1 := PrepareKey(k0[..8]);
    ghost var k := k1[..];
    assert k1[..8] == k && k1[8..] == [];
    TurnTwice(k);
    LsDesKey(k1, 15);
    assert k1[..8] == k1[..] == LeftsKey(k, 1) && k1[8..] == [];
    DesRound(data, k1);
    LsDesKey(k1, 15);
    assert k1[..8] == k1[..] == LeftsKey(k, 2);
    DesRound(data, k1);
  }

  lemma TurnTwice(k: Oct)
    ensures LeftsKey(LeftsKey(k, 1), 1) == LeftsKey(k, 2)
  {
    LeftsKeyAdd(k, 1, 1);
  }

  /** r2_des */
  method R2Des(data: array<byte>, key: FullKey, algo: byte)
    requires data.Length == 8
    modifies data
    ensures data[..] == R2(old(data[..]), key, algo)
  {
    hide Round, LeftsKey, RightsKey, Prepared, ShortKey, SwapHalves;
    var k0 := MakeShortKey(key, algo);
    var k1 := PrepareKey(k0[..8]);
    ghost var k := k1[..];
    assert k1[..8] == k && k1[8..] == [];
    TurnTwice(k);
    LsDesKey(k1, 15);
    assert k1[..8] == k1[..] && k1[8..] == [];
    LsDesKey(k1, 15);
    assert k1[..8] == k1[..] == LeftsKey(k, 2) && k1[8..] == [];
    DesRound(data, k1);
    RsDesKey(k1, RIGHT_TURNS[1]);
    assert k1[..8] == k1[..] == RightsKey(LeftsKey(k, 2), RIGHT_TURNS[1]);
    DesRound(data, k1);
    RsDesKey(k1, RIGHT_TURNS[1]);
    SwapData(data);
  }

  /** cw_des */
  method CwDes(data: array<byte>, inkey: FullKey, m: byte)
    requires data.Length == 8
    modifies data
    ensures data[..] == Des(old(data[..]), inkey, m)
  {
    hide Round, LeftsKey, RightsKey, Prepared;
    ghost var d := data[..];
    var key := PrepareKey(inkey[9..17]);
    ghost var k := key[..];
    for i := 16 downto 0
      invariant key[..] == key[..8] && key[8..] == []
      invariant Keyed(data[..], key[..]) == Rounds(d, k, m, 16 - i)
    {
      if m == 1 {
        LsDesKey(key, i);
        assert key[..8] == key[..];
      }
      DesRound(data, key);
      if m == 0 {
        RsDesKey(key, RIGHT_TURNS[i]);
        assert key[..8] == key[..];
      }
    }
  }

  /** swap_key */
  method SwapKey(k: array<byte>)
    requires k.Length == 22
    modifies k
    ensures k[..] == old(k[8..16] + k[..8] + k[16..])
  {
    forall i | 0 <= i < 16 {
      k[i] := if i < 8 then k[i + 8] else k[i - 8];
    }
  }

  /** cw_dec_enc */
  method CwDecEnc(d: array<byte>, k: array<byte>, a: byte, m: byte)
    requires d.Length == 8 && k.Length == 22 && d != k
    modifies d, k
    ensures d[..] == DecEnc(old(d[..]), old(k[..]), a, m)
    ensures k[..] == KeyAfter(old(k[..]), m)
  {
    hide L2, R2, Des;
    ghost var key := k[..];
    var n := m % 2;
    L2Des(d, k[..], a);
    CwDes(d, k[..], n);
    R2Des(d, k[..], a);
    if (m / 2) % 2 == 1 {
      SwapKey(k);
    }
  }
}
