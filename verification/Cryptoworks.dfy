/** The Cryptoworks cipher: a Feistel network whose two 28-bit key halves live in 32-bit
    windows that are rotated in either direction (oscam/module-emulator-cryptoworks.c:41-398). */
module Cryptoworks {
  import opened Bytes
  import opened KeyWindow

  const SBOX1: bytes := [
    0xD8, 0xD7, 0x83, 0x3D, 0x1C, 0x8A, 0xF0, 0xCF, 0x72, 0x4C, 0x4D, 0xF2, 0xED, 0x33, 0x16, 0xE0,
    0x8F, 0x28, 0x7C, 0x82, 0x62, 0x37, 0xAF, 0x59, 0xB7, 0xE0, 0x00, 0x3F, 0x09, 0x4D, 0xF3, 0x94,
    0x16, 0xA5, 0x58, 0x83, 0xF2, 0x4F, 0x67, 0x30, 0x49, 0x72, 0xBF, 0xCD, 0xBE, 0x98, 0x81, 0x7F,
    0xA5, 0xDA, 0xA7, 0x7F, 0x89, 0xC8, 0x78, 0xA7, 0x8C, 0x05, 0x72, 0x84, 0x52, 0x72, 0x4D, 0x38]

  const SBOX2: bytes := [
    0xD8, 0x35, 0x06, 0xAB, 0xEC, 0x40, 0x79, 0x34, 0x17, 0xFE, 0xEA, 0x47, 0xA3, 0x8F, 0xD5, 0x48,
    0x0A, 0xBC, 0xD5, 0x40, 0x23, 0xD7, 0x9F, 0xBB, 0x7C, 0x81, 0xA1, 0x7A, 0x14, 0x69, 0x6A, 0x96,
    0x47, 0xDA, 0x7B, 0xE8, 0xA1, 0xBF, 0x98, 0x46, 0xB8, 0x41, 0x45, 0x9E, 0x5E, 0x20, 0xB2, 0x35,
    0xE4, 0x2F, 0x9A, 0xB5, 0xDE, 0x01, 0x65, 0xF8, 0x0F, 0xB2, 0xD2, 0x45, 0x21, 0x4E, 0x2D, 0xDB]

  const SBOX3: bytes := [
    0xDB, 0x59, 0xF4, 0xEA, 0x95, 0x8E, 0x25, 0xD5, 0x26, 0xF2, 0xDA, 0x1A, 0x4B, 0xA8, 0x08, 0x25,
    0x46, 0x16, 0x6B, 0xBF, 0xAB, 0xE0, 0xD4, 0x1B, 0x89, 0x05, 0x34, 0xE5, 0x74, 0x7B, 0xBB, 0x44,
    0xA9, 0xC6, 0x18, 0xBD, 0xE6, 0x01, 0x69, 0x5A, 0x99, 0xE0, 0x87, 0x61, 0x56, 0x35, 0x76, 0x8E,
    0xF7, 0xE8, 0x84, 0x13, 0x04, 0x7B, 0x9B, 0xA6, 0x7A, 0x1F, 0x6B, 0x5C, 0xA9, 0x86, 0x54, 0xF9]

  const SBOX4: bytes := [
    0xBC, 0xC1, 0x41, 0xFE, 0x42, 0xFB, 0x3F, 0x10, 0xB5, 0x1C, 0xA6, 0xC9, 0xCF, 0x26, 0xD1, 0x3F,
    0x02, 0x3D, 0x19, 0x20, 0xC1, 0xA8, 0xBC, 0xCF, 0x7E, 0x92, 0x4B, 0x67, 0xBC, 0x47, 0x62, 0xD0,
    0x60, 0x9A, 0x9E, 0x45, 0x79, 0x21, 0x89, 0xA9, 0xC3, 0x64, 0x74, 0x9A, 0xBC, 0xDB, 0x43, 0x66,
    0xDF, 0xE3, 0x21, 0xBE, 0x1E, 0x16, 0x73, 0x5D, 0xA2, 0xCD, 0x8C, 0x30, 0x67, 0x34, 0x9C, 0xCB]

  const AND_BIT1: bytes := [0x00, 0x40, 0x04, 0x80, 0x21, 0x10, 0x02, 0x08]
  const AND_BIT2: bytes := [0x80, 0x08, 0x01, 0x40, 0x04, 0x20, 0x10, 0x02]
  const AND_BIT3: bytes := [0x82, 0x40, 0x01, 0x10, 0x00, 0x20, 0x04, 0x08]
  const AND_BIT4: bytes := [0x02, 0x10, 0x04, 0x40, 0x80, 0x08, 0x01, 0x20]

  /** An index into an 8-byte array. */
  type Lane = x: int | 0 <= x < 8

  /** An index into its second half. */
  type UpperLane = x: int | 4 <= x < 8 witness 4

  const KEY_LANES: seq<Lane> := [
    1, 0, 3, 1, 2, 2, 3, 2, 1, 3, 1, 1, 3, 0, 1, 2, 3, 1, 3, 2, 2, 0,
    7, 6, 5, 4, 7, 6, 5, 7, 6, 5, 6, 7, 5, 7, 5, 7, 6, 6, 7, 5, 4, 4]

  const KEY_BITS: bytes := [
    0x80, 0x08, 0x10, 0x02, 0x08, 0x40, 0x01, 0x20, 0x40, 0x80, 0x04,
    0x10, 0x04, 0x01, 0x01, 0x02, 0x20, 0x20, 0x02, 0x01, 0x80, 0x04,
    0x02, 0x02, 0x08, 0x02, 0x10, 0x80, 0x01, 0x20, 0x08, 0x80, 0x01,
    0x08, 0x40, 0x01, 0x02, 0x80, 0x10, 0x40, 0x40, 0x10, 0x08, 0x01]

  const FIRST_BITS: bytes := [0x02, 0x10, 0x04, 0x04]

  const TARGETS: seq<Lane> := [0, 2, 4, 6, 7, 5, 3, 1]
  const SOURCES: seq<UpperLane> := [4, 5, 6, 7, 7, 6, 5, 4]
  const CARRIES: seq<UpperLane> := [7, 4, 5, 6, 4, 7, 6, 5]

  const LEFT_TURNS: bytes := [1, 2, 2, 2, 2, 2, 2, 1, 2, 2, 2, 2, 2, 2, 1, 1]
  const RIGHT_TURNS: bytes := [1, 1, 2, 2, 2, 2, 2, 2, 1, 2, 2, 2, 2, 2, 2, 1]

  type Oct = b: bytes | |b| == 8 witness [0, 0, 0, 0, 0, 0, 0, 0]

  type FullKey = k: bytes | |k| == 22 witness seq(22, _ => 0)

  // The round function

  /** The byte that des_round derives in its first loop, at step t of eight. */
  function ExpandedByte(r: Half, t: Lane): byte {
    var source, carry := r[SOURCES[t] - 4], r[CARRIES[t] - 4];
    if t >= 4 then Mul8(2, source) % 64 + (if And(carry, 0x80) != 0 then 1 else 0)
    else source / 2 + (if And(carry, 1) != 0 then 0x80 else 0)
  }

  /** The first t of those bytes, each put at its place. */
  function Expand(r: Half, t: nat): Oct
    requires t <= 8
  {
    if t == 0 then Zeros(8) else Expand(r, t - 1)[TARGETS[t - 1] := ExpandedByte(r, t - 1)]
  }

  function KeyBit(k: Oct, a: nat): (bit: nat)
    requires a < 44
    ensures bit <= 1
  {
    if And(k[KEY_LANES[a]], KEY_BITS[a]) != 0 then 1 else 0
  }

  /** n key bits shifted into o from the left, starting at table entry a. */
  function FromLeft(o: byte, k: Oct, a: nat, n: nat): byte
    requires a + n <= 44
  {
    if n == 0 then o else FromLeft(o, k, a, n - 1) / 2 + KeyBit(k, a + n - 1) * 128
  }

  /** n key bits shifted into o from the right. */
  function FromRight(o: byte, k: Oct, a: nat, n: nat): byte
    requires a + n <= 44
  {
    if n == 0 then o else Add8(Mul8(2, FromRight(o, k, a, n - 1)), KeyBit(k, a + n - 1))
  }

  /** The first table entry that mixing step i reads: even steps read six, odd ones five. */
  function FirstEntry(i: Lane): (a: nat)
    ensures a + (if i % 2 == 1 then 5 else 6) <= 44
  {
    11 * (i / 2) + (if i % 2 == 1 then 6 else 0)
  }

  /** The second loop of des_round: key bits are mixed into byte i. */
  function MixKey(td: Oct, k: Oct, i: Lane): Oct {
    var n := if i == 0 then 1 else i - 1;
    if i % 2 == 1 then
      var first := if And(k[n], FIRST_BITS[i / 2]) != 0 then 1 else 0;
      td[i := Xor(td[i], FromRight(first, k, FirstEntry(i), 5))]
    else
      td[i := Xor(FromLeft(td[n], k, FirstEntry(i), 6), td[i]) / 4]
  }

  function MixKeys(r: Half, k: Oct, n: nat): Oct
    requires n <= 8
  {
    if n == 0 then Expand(r, 8) else MixKey(MixKeys(r, k, n - 1), k, n - 1)
  }

  lemma {:induction false} XorStaysBelow(w: nat, v: nat, a: nat, b: nat)
    requires v <= w && a < Pow2(v) && b < Pow2(v)
    ensures XorBits(w, a, b) < Pow2(v)
  {
    if v == 0 {
      XorBitsUnits(w, 0, 0);
    } else {
      XorStaysBelow(w - 1, v - 1, a / 2, b / 2);
    }
  }

  lemma {:induction false} FiveOnTop(first: nat, k: Oct, a: nat, n: nat)
    requires first <= 1 && a + n <= 44 && n <= 5
    ensures FromRight(first, k, a, n) < Pow2(n + 1)
  {
    hide KeyBit, Add8, Mul8;
    SmallPowers();
    if n == 0 {
    } else {
      FiveOnTop(first, k, a, n - 1);
      NoOverflow(FromRight(first, k, a, n - 1), KeyBit(k, a + n - 1));
    }
  }

  lemma NoOverflow(o: byte, bit: nat)
    requires o < 32 && bit <= 1
    ensures Add8(Mul8(2, o), bit) == 2 * o + bit
  {
  }

  lemma SmallPowers()
    ensures Pow2(1) == 2 && Pow2(2) == 4 && Pow2(3) == 8 && Pow2(4) == 16 && Pow2(5) == 32 && Pow2(6) == 64
  {
  }

  lemma {:induction false} ExpandedOddBytes(r: Half)
    ensures forall i :: 0 <= i < 8 && i % 2 == 1 ==> Expand(r, 8)[i] < 64
  {
    hide And, Mul8;
    var e := Expand(r, 4);
    var e5 := Expand(r, 5);
    var e6 := Expand(r, 6);
    var e7 := Expand(r, 7);
    assert e5 == e[7 := ExpandedByte(r, 4)];
    assert e6 == e5[5 := ExpandedByte(r, 5)];
    assert e7 == e6[3 := ExpandedByte(r, 6)];
    assert Expand(r, 8) == e7[1 := ExpandedByte(r, 7)];
    SmallBytes(r);
  }

  lemma SmallBytes(r: Half)
    ensures ExpandedByte(r, 4) < 64 && ExpandedByte(r, 5) < 64 && ExpandedByte(r, 6) < 64 && ExpandedByte(r, 7) < 64
  {
    hide And, Mul8;
    EvenByte(r[3]);
    EvenByte(r[2]);
    EvenByte(r[1]);
    EvenByte(r[0]);
  }

  lemma EvenByte(x: byte)
    ensures Mul8(2, x) % 64 <= 62
  {
    assert Mul8(2, x) == 2 * (x % 128);
    assert (2 * (x % 128)) % 64 == 2 * (x % 32);
  }

  /** After key mixing every byte is a valid index into the 64-entry S-boxes. */
  lemma {:induction false} SBoxIndicesFit(r: Half, k: Oct, n: nat)
    requires n <= 8
    ensures forall i :: 0 <= i < 8 && (i < n || i % 2 == 1) ==> MixKeys(r, k, n)[i] < 64
  {
    hide Xor, Expand, FromLeft, FromRight, And;
    if n == 0 {
      ExpandedOddBytes(r);
    } else {
      SBoxIndicesFit(r, k, n - 1);
      var td, i := MixKeys(r, k, n - 1), n - 1;
      if i % 2 == 1 {
        var first := if And(k[i - 1], FIRST_BITS[i / 2]) != 0 then 1 else 0;
        FiveOnTop(first, k, FirstEntry(i), 5);
        XorBelow64(td[i], FromRight(first, k, FirstEntry(i), 5));
      }
    }
  }

  lemma XorBelow64(a: byte, b: byte)
    requires a < 64 && b < Pow2(6)
    ensures Xor(a, b) < 64
  {
    assert Pow2(6) == 64;
    XorStaysBelow(8, 6, a, b);
  }

  function Substituted(x: byte, bits: byte, box: bytes): byte
    requires |box| == 64
  {
    And(bits, box[x % 64])
  }

  /** The third loop: S-box outputs folded into a half. */
  function Fold(l: Half, td: Oct, n: nat): Half
    requires n <= 8
  {
    if n == 0 then l
    else
      var h, x := Fold(l, td, n - 1), td[n - 1];
      [Xor(h[0], Substituted(x, AND_BIT1[n - 1], SBOX1)), Xor(h[1], Substituted(x, AND_BIT2[n - 1], SBOX2)),
       Xor(h[2], Substituted(x, AND_BIT3[n - 1], SBOX3)), Xor(h[3], Substituted(x, AND_BIT4[n - 1], SBOX4))]
  }

  /** des_round: one half is changed as a function of the other, then the halves swap. */
  function Round(d: Oct, k: Oct): Oct {
    d[4..] + Fold(d[..4], MixKeys(d[4..], k, 8), 8)
  }

  function SwapHalves(d: Oct): Oct {
    d[4..] + d[..4]
  }

  /** Folding twice is folding not at all. */
  lemma {:induction false} FoldMerges(l: Half, td: Oct, n: nat)
    requires n <= 8
    ensures forall i :: 0 <= i < 4 ==> Fold(l, td, n)[i] == Xor(l[i], Fold(Zeros(4), td, n)[i])
  {
    hide Xor, Substituted;
    if n == 0 {
      forall i | 0 <= i < 4
        ensures l[i] == Xor(l[i], 0)
      {
        XorLaws(l[i], 0, 0);
      }
    } else {
      FoldMerges(l, td, n - 1);
      var z, x := Fold(Zeros(4), td, n - 1), td[n - 1];
      XorLaws(l[0], z[0], Substituted(x, AND_BIT1[n - 1], SBOX1));
      XorLaws(l[1], z[1], Substituted(x, AND_BIT2[n - 1], SBOX2));
      XorLaws(l[2], z[2], Substituted(x, AND_BIT3[n - 1], SBOX3));
      XorLaws(l[3], z[3], Substituted(x, AND_BIT4[n - 1], SBOX4));
    }
  }

  lemma {:induction false} FoldTwice(l: Half, td: Oct)
    ensures Fold(Fold(l, td, 8), td, 8) == l
  {
    hide Xor, Fold;
    var m, z := Fold(l, td, 8), Fold(Zeros(4), td, 8);
    FoldMerges(l, td, 8);
    FoldMerges(m, td, 8);
    forall i | 0 <= i < 4
      ensures Fold(m, td, 8)[i] == l[i]
    {
      XorCancels(l[i], z[i]);
    }
  }

  /** The Feistel property: between two swaps, a round undoes itself. */
  lemma RoundUndo(d: Oct, k: Oct)
    ensures Round(SwapHalves(Round(d, k)), k) == SwapHalves(d)
  {
    hide Fold, MixKeys;
    FoldTwice(d[..4], MixKeys(d[4..], k, 8));
    var e := Round(d, k);
    assert e[..4] == d[4..] && SwapHalves(e)[4..] == d[4..] && SwapHalves(e)[..4] == e[4..];
  }

  // The key schedule

  function LeftsKey(k: Oct, n: nat): Oct {
    Lefts(k[..4], n) + Lefts(k[4..], n)
  }

  function RightsKey(k: Oct, n: nat): Oct {
    Rights(k[..4], n) + Rights(k[4..], n)
  }

  predicate PeriodicKey(k: Oct) {
    Periodic(k[..4]) && Periodic(k[4..])
  }

  lemma LeftsKeyAdd(k: Oct, m: nat, n: nat)
    ensures LeftsKey(LeftsKey(k, m), n) == LeftsKey(k, m + n)
  {
    hide Lefts;
    LeftsAdd(k[..4], m, n);
    LeftsAdd(k[4..], m, n);
    assert LeftsKey(k, m)[..4] == Lefts(k[..4], m) && LeftsKey(k, m)[4..] == Lefts(k[4..], m);
  }

  lemma RightsKeyUndo(k: Oct, m: nat, n: nat)
    requires PeriodicKey(k) && n <= m
    ensures RightsKey(LeftsKey(k, m), n) == LeftsKey(k, m - n)
  {
    hide Lefts, Rights, Periodic;
    RightsUndoLefts(k[..4], m, n);
    RightsUndoLefts(k[4..], m, n);
    assert LeftsKey(k, m)[..4] == Lefts(k[..4], m) && LeftsKey(k, m)[4..] == Lefts(k[4..], m);
  }

  lemma FullTurnKey(k: Oct)
    requires PeriodicKey(k)
    ensures LeftsKey(k, 28) == k
  {
    hide Lefts, Periodic;
    FullTurn(k[..4]);
    FullTurn(k[4..]);
  }

  /** Places turned left before round t of mode 1, rounds counted from 1. */
  function TurnedBefore(t: nat): nat
    requires t <= 16
  {
    if t == 0 then 0 else TurnedBefore(t - 1) + LEFT_TURNS[16 - t]
  }

  /** Places turned right after round t of mode 0. */
  function TurnedBack(t: nat): nat
    requires t <= 16
  {
    if t == 0 then 0 else TurnedBack(t - 1) + RIGHT_TURNS[16 - t]
  }

  /** The two tables line up: mode 0 sees mode 1's round keys in reverse. */
  lemma {:induction false} SchedulesMeet(t: nat)
    requires t < 16
    ensures TurnedBack(t) + TurnedBefore(16 - t) == 28
  {
    assert [TurnedBefore(1), TurnedBefore(2), TurnedBefore(3), TurnedBefore(4)] == [1, 2, 4, 6];
    assert [TurnedBefore(5), TurnedBefore(6), TurnedBefore(7), TurnedBefore(8)] == [8, 10, 12, 14];
    assert [TurnedBefore(9), TurnedBefore(10), TurnedBefore(11), TurnedBefore(12)] == [15, 17, 19, 21];
    assert [TurnedBefore(13), TurnedBefore(14), TurnedBefore(15), TurnedBefore(16)] == [23, 25, 27, 28];
    assert [TurnedBack(0), TurnedBack(1), TurnedBack(2), TurnedBack(3)] == [0, 1, 3, 5];
    assert [TurnedBack(4), TurnedBack(5), TurnedBack(6), TurnedBack(7)] == [7, 9, 11, 13];
    assert [TurnedBack(8), TurnedBack(9), TurnedBack(10), TurnedBack(11)] == [14, 16, 18, 20];
    assert [TurnedBack(12), TurnedBack(13), TurnedBack(14), TurnedBack(15)] == [22, 24, 26, 27];
  }

  datatype Keyed = Keyed(data: Oct, key: Oct)

  /** The first n of the sixteen rounds of cw_des. */
  function Rounds(d: Oct, k: Oct, mode: nat, n: nat): Keyed
    requires n <= 16
  {
    if n == 0 then Keyed(d, k)
    else
      var s := Rounds(d, k, mode, n - 1);
      if mode == 1 then
        var key := LeftsKey(s.key, LEFT_TURNS[16 - n]);
        Keyed(Round(s.data, key), key)
      else
        Keyed(Round(s.data, s.key), if mode == 0 then RightsKey(s.key, RIGHT_TURNS[16 - n]) else s.key)
  }

  lemma {:induction false} KeysOfModeOne(d: Oct, k: Oct, n: nat)
    requires n <= 16
    ensures Rounds(d, k, 1, n).key == LeftsKey(k, TurnedBefore(n))
  {
    hide Round, LeftsKey;
    if n == 0 {
      NoTurn(k);
    } else {
      KeysOfModeOne(d, k, n - 1);
      LeftsKeyAdd(k, TurnedBefore(n - 1), LEFT_TURNS[16 - n]);
    }
  }

  lemma NoTurn(k: Oct)
    ensures LeftsKey(k, 0) == k && RightsKey(k, 0) == k
  {
  }

  lemma {:induction false} KeysOfModeZero(d: Oct, k: Oct, n: nat)
    requires n <= 16 && PeriodicKey(k)
    ensures n < 16 ==> Rounds(d, k, 0, n).key == LeftsKey(k, TurnedBefore(16 - n))
  {
    hide Round, LeftsKey, RightsKey, PeriodicKey, TurnedBefore, TurnedBack;
    if n == 0 {
      SchedulesMeet(0);
      FullTurnKey(k);
      assert TurnedBack(0) == 0 by { NoTurns(); }
    } else if n < 16 {
      KeysOfModeZero(d, k, n - 1);
      SchedulesMeet(n - 1);
      SchedulesMeet(n);
      NextTurnBack(n);
      RightsKeyUndo(k, TurnedBefore(17 - n), RIGHT_TURNS[16 - n]);
    }
  }

  lemma NoTurns()
    ensures TurnedBack(0) == 0
  {
  }

  lemma NextTurnBack(n: nat)
    requires 0 < n <= 16
    ensures TurnedBack(n) == TurnedBack(n - 1) + RIGHT_TURNS[16 - n]
  {
  }

  /** Mode 0 run on the swapped result of mode 1 retraces its rounds. */
  lemma {:induction false} RoundsRetrace(d: Oct, k: Oct, n: nat)
    requires n <= 16 && PeriodicKey(k)
    ensures Rounds(SwapHalves(Rounds(d, k, 1, 16).data), k, 0, n).data == SwapHalves(Rounds(d, k, 1, 16 - n).data)
  {
    hide Round, LeftsKey, RightsKey, PeriodicKey, TurnedBefore, SwapHalves;
    if n == 0 {
    } else {
      RoundsRetrace(d, k, n - 1);
      var e := SwapHalves(Rounds(d, k, 1, 16).data);
      KeysOfModeZero(e, k, n - 1);
      KeysOfModeOne(d, k, 17 - n);
      RoundUndo(Rounds(d, k, 1, 16 - n).data, LeftsKey(k, TurnedBefore(17 - n)));
    }
  }

  /** and the other way round: mode 1 retraces mode 0. */
  lemma {:induction false} RoundsRetraceBack(d: Oct, k: Oct, n: nat)
    requires n <= 16 && PeriodicKey(k)
    ensures Rounds(SwapHalves(Rounds(d, k, 0, 16).data), k, 1, n).data == SwapHalves(Rounds(d, k, 0, 16 - n).data)
  {
    hide Round, LeftsKey, RightsKey, PeriodicKey, TurnedBefore, SwapHalves;
    if n == 0 {
    } else {
      RoundsRetraceBack(d, k, n - 1);
      var e := SwapHalves(Rounds(d, k, 0, 16).data);
      KeysOfModeOne(e, k, n);
      KeysOfModeZero(d, k, 16 - n);
      RoundUndo(Rounds(d, k, 0, 16 - n).data, LeftsKey(k, TurnedBefore(n)));
    }
  }

  // Key preparation

  function Halved(x: byte, n: nat): byte {
    if n == 0 then x else Halved(x, n - 1) / 2
  }

  /** The first t bits of prep_key: bit t of the key, counted from the lowest bit of byte 6,
      is pushed into byte 6, 5, .., 0, 6, .. of the result. */
  function PushBits(key: bytes, t: nat): Oct
    requires |key| >= 7 && t <= 56
  {
    if t == 0 then Zeros(8)
    else
      var out := PushBits(key, t - 1);
      var bit := Halved(key[6 - (t - 1) / 8], (t - 1) % 8) % 2;
      var m := 6 - (t - 1) % 7;
      out[m := Add8(Mul8(2, out[m]), bit)]
  }

  /** The bytes of the second half in reverse, and what is left of the fourth byte behind them. */
  function Arranged(d: Oct): Oct {
    d[4 := d[6]][6 := d[4]][7 := Mul8(16, d[3])]
  }

  function Prepared(key: bytes): Oct
    requires |key| >= 7
  {
    RightsKey(Arranged(PushBits(key, 56)), 4)
  }

  lemma PreparedIsPeriodic(key: bytes)
    requires |key| >= 7
    ensures PeriodicKey(Prepared(key))
  {
    hide Rights, Periodic, PushBits, Arranged;
    var e := Arranged(PushBits(key, 56));
    FourRightsArePeriodic(e[..4]);
    FourRightsArePeriodic(e[4..]);
    assert RightsKey(e, 4)[..4] == Rights(e[..4], 4) && RightsKey(e, 4)[4..] == Rights(e[4..], 4);
  }

  /** cw_48_key: the last six key bytes, of which the algorithm number replaces some. */
  function ShortKey(k: FullKey, algo: byte): Oct {
    var roundCounter := 7 - algo % 8;
    seq(8, j requires 0 <= j < 8 =>
      if roundCounter < j + 2 <= 8 then k[j + 2] else if j < 6 then k[16 + j] else 0)
  }

  // The cipher

  function L2(d: Oct, k: FullKey, algo: byte): Oct {
    var key := Prepared(ShortKey(k, algo));
    Round(Round(d, LeftsKey(key, 1)), LeftsKey(key, 2))
  }

  function R2(d: Oct, k: FullKey, algo: byte): Oct {
    var key := LeftsKey(Prepared(ShortKey(k, algo)), 2);
    var turned := RightsKey(key, RIGHT_TURNS[1]);
    SwapHalves(Round(Round(d, key), turned))
  }

  function Des(d: Oct, k: FullKey, mode: nat): Oct {
    Rounds(d, Prepared(k[9..17]), mode, 16).data
  }

  /** cw_dec_enc: the data it leaves; only the lowest bit of m matters for it. */
  function DecEnc(d: Oct, k: FullKey, algo: byte, m: byte): Oct {
    R2(Des(L2(d, k, algo), k, m % 2), k, algo)
  }

  /** cw_dec_enc also swaps the two halves of the key when bit 1 of m is set. */
  function KeyAfter(k: FullKey, m: byte): FullKey {
    if (m / 2) % 2 == 1 then k[8..16] + k[..8] + k[16..] else k
  }

  /** r2_des is l2_des backwards, up to one swap. */
  lemma R2MirrorsL2(d: Oct, k: FullKey, algo: byte)
    ensures R2(SwapHalves(L2(d, k, algo)), k, algo) == d
    ensures SwapHalves(L2(R2(d, k, algo), k, algo)) == d
  {
    hide Round, LeftsKey, RightsKey, Prepared, PeriodicKey, ShortKey, SwapHalves;
    var key := Prepared(ShortKey(k, algo));
    PreparedIsPeriodic(ShortKey(k, algo));
    var k1, k2 := LeftsKey(key, 1), LeftsKey(key, 2);
    RightsKeyUndo(key, 2, 1);
    RoundUndo(d, k1);
    RoundUndo(Round(d, k1), k2);
    SwapTwice(d);
    var e := Round(d, k2);
    RoundUndo(e, k1);
    RoundUndo(d, k2);
    SwapTwice(Round(e, k1));
    SwapTwice(e);
  }

  lemma SwapTwice(d: Oct)
    ensures SwapHalves(SwapHalves(d)) == d
  {
  }

  lemma DesUndo(d: Oct, k: FullKey)
    ensures Des(SwapHalves(Des(d, k, 1)), k, 0) == SwapHalves(d)
    ensures Des(SwapHalves(Des(d, k, 0)), k, 1) == SwapHalves(d)
  {
    hide Round, LeftsKey, RightsKey, Prepared, PeriodicKey, SwapHalves;
    var key := Prepared(k[9..17]);
    PreparedIsPeriodic(k[9..17]);
    RoundsRetrace(d, key, 16);
    RoundsRetraceBack(d, key, 16);
  }

  /** For every key, algorithm and block: cw_dec_enc with an even m and with an odd m
      are inverse to each other, in either order. */
  lemma DecEncUndo(d: Oct, k: FullKey, algo: byte, m: byte, n: byte)
    requires m % 2 != n % 2
    ensures DecEnc(DecEnc(d, k, algo, m), k, algo, n) == d
  {
    hide L2, R2, Des, SwapHalves;
    var x := L2(d, k, algo);
    var y := Des(x, k, m % 2);
    R2MirrorsL2(y, k, algo);
    R2MirrorsL2(d, k, algo);
    var inner := L2(R2(y, k, algo), k, algo);
    SwapTwice(inner);
    assert inner == SwapHalves(y);
    DesUndo(x, k);
  }
}
