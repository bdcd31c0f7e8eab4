/** What a Cryptoworks round and the preparation of its key compute, bit by bit
    (oscam/module-emulator-cryptoworks.c:95-171, 279-320). */
module CryptoworksBits {
  import opened Bytes
  import opened KeyWindow
  import opened Cryptoworks

  // Bits of bytes that are shifted

  lemma ShiftedIn(x: byte, bit: nat, i: nat)
    requires bit <= 1 && i < 8
    ensures Bit(x / 2 + bit * 128, i) == if i == 7 then bit else Bit(x, i + 1)
  {
    TopOnly(x / 2, bit, i);
  }

  lemma {:induction false} TopOnly(x: nat, bit: nat, i: nat)
    requires x < 128 && bit <= 1 && i < 8
    ensures Bit(x + bit * 128, i) == if i == 7 then bit else Bit(x, i)
  {
    assert Pow2(7) == 128;
    AddAbove(7, x, bit, i);
  }

  /** Adding a bit above the others. */
  lemma {:induction false} AddAbove(w: nat, x: nat, bit: nat, i: nat)
    requires x < Pow2(w) && bit <= 1 && i <= w
    ensures Bit(x + bit * Pow2(w), i) == if i == w then bit else Bit(x, i)
  {
    if w == 0 {
    } else {
      var y := x + bit * Pow2(w);
      assert y == x + 2 * (bit * Pow2(w - 1));
      assert y % 2 == x % 2 && y / 2 == x / 2 + bit * Pow2(w - 1);
      if i > 0 {
        AddAbove(w - 1, x / 2, bit, i - 1);
      }
    }
  }

  lemma Doubled(x: nat, bit: nat, i: nat)
    requires bit <= 1
    ensures Bit(2 * x + bit, i) == if i == 0 then bit else Bit(x, i - 1)
  {
  }

  lemma {:induction false} Quartered(x: nat, i: nat)
    ensures Bit(x / 4, i) == Bit(x, i + 2)
  {
    assert x / 4 == x / 2 / 2;
    assert Bit(x, i + 2) == Bit(x / 2, i + 1) == Bit(x / 2 / 2, i);
  }

  // The expansion

  /** Bit b of a half, bit 31 being the highest of its first byte. */
  function HalfBit(r: Half, b: nat): nat
    requires b < 32
  {
    Bit(r[3 - b / 8], b % 8)
  }

  lemma {:induction false} Expanded(r: Half)
    ensures var e := (t: nat) requires t < 8 => ExpandedByte(r, t);
            Expand(r, 8) == [e(0), e(7), e(1), e(6), e(2), e(5), e(3), e(4)]
  {
    hide ExpandedByte;
    var e := (t: nat) requires t < 8 => ExpandedByte(r, t);
    assert Expand(r, 1) == Expand(r, 0)[0 := e(0)];
    assert Expand(r, 2) == Expand(r, 1)[2 := e(1)];
    assert Expand(r, 3) == Expand(r, 2)[4 := e(2)];
    assert Expand(r, 4) == Expand(r, 3)[6 := e(3)];
    assert Expand(r, 5) == Expand(r, 4)[7 := e(4)];
    assert Expand(r, 6) == Expand(r, 5)[5 := e(5)];
    assert Expand(r, 7) == Expand(r, 6)[3 := e(6)];
    assert Expand(r, 8) == Expand(r, 7)[1 := e(7)];
  }

  lemma {:induction false} MaskOne(x: byte)
    ensures And(x, 1) != 0 <==> Bit(x, 0) == 1
    ensures And(x, 0x80) != 0 <==> Bit(x, 7) == 1
  {
    hide AndBits;
    assert Pow2(0) == 1 && Pow2(7) == 128;
    TestsBit(8, x, 0);
    TestsBit(8, x, 7);
  }

  /** A byte for an even place: its source moved right, with the lowest bit of the byte before on top. */
  lemma {:induction false} EvenExpanded(r: Half, t: Lane, i: nat)
    requires t < 4 && i < 8
    ensures Bit(ExpandedByte(r, t), i) == if i == 7 then Bit(r[(t + 3) % 4], 0) else Bit(r[t], i + 1)
  {
    hide And, Bit;
    assert SOURCES[t] as int == t as int + 4 && CARRIES[t] as int - 4 == (t + 3) % 4;
    MaskOne(r[(t + 3) % 4]);
    ShiftedIn(r[t], Bit(r[(t + 3) % 4], 0), i);
  }

  /** A byte for an odd place: six bits, the lowest of them the highest bit of the byte behind. */
  lemma {:induction false} OddExpanded(r: Half, t: Lane, i: nat)
    requires 4 <= t && i < 6
    ensures Bit(ExpandedByte(r, t), i) == if i == 0 then Bit(r[(8 - t) % 4], 7) else Bit(r[7 - t], i - 1)
  {
    hide And, Bit;
    assert SOURCES[t] as int - 4 == 7 - t as int && CARRIES[t] as int - 4 == (8 - t) % 4;
    var x, bit := r[7 - t], Bit(r[(8 - t) % 4], 7);
    MaskOne(r[(8 - t) % 4]);
    FiveBits(x);
    assert ExpandedByte(r, t) == 2 * (x % 32) + bit;
    Doubled(x % 32, bit, i);
    if i > 0 {
      LowBits(x, i - 1);
    }
  }

  lemma FiveBits(x: byte)
    ensures Mul8(2, x) % 64 == 2 * (x % 32)
  {
    assert Mul8(2, x) == 2 * (x % 128);
    assert (2 * (x % 128)) % 64 == 2 * (x % 32);
  }

  lemma {:induction false} LowBits(x: byte, i: nat)
    requires i < 5
    ensures Bit(x % 32, i) == Bit(x, i)
  {
    assert Pow2(5) == 32 && x == x % 32 + 32 * (x / 32);
    AboveIsIgnored(5, x % 32, x / 32, i);
  }

  lemma {:induction false} EvenPlace(r: Half, q: nat, m: nat)
    requires q < 4 && m < 6
    ensures Bit(Expand(r, 8)[2 * q], m + 2) == HalfBit(r, (27 - 8 * q + m) % 32)
  {
    hide ExpandedByte, Expand, Bit;
    Expanded(r);
    EvenExpanded(r, q, m + 2);
    assert Expand(r, 8)[2 * q] == ExpandedByte(r, q);
    EvenSource(q, m);
  }

  lemma EvenSource(q: nat, m: nat)
    requires q < 4 && m < 6
    ensures var b := (27 - 8 * q + m) % 32;
            3 - b / 8 == (if m == 5 then (q + 3) % 4 else q) && b % 8 == if m == 5 then 0 else m + 3
  {
  }

  lemma {:induction false} OddPlace(r: Half, q: nat, m: nat)
    requires q < 4 && m < 6
    ensures Bit(Expand(r, 8)[2 * q + 1], m) == HalfBit(r, (23 - 8 * q + m) % 32)
  {
    hide ExpandedByte, Expand, Bit;
    Expanded(r);
    OddExpanded(r, 7 - q, m);
    assert Expand(r, 8)[2 * q + 1] == ExpandedByte(r, 7 - q);
    OddSource(q, m);
  }

  lemma OddSource(q: nat, m: nat)
    requires q < 4 && m < 6
    ensures var b := (23 - 8 * q + m) % 32;
            3 - b / 8 == (if m == 0 then (q + 1) % 4 else q) && b % 8 == if m == 0 then 7 else m - 1
  {
  }

  // The key bits

  /** The key bit that comes to bit m of step s: even steps take their table entries from below, odd ones
      from above, with one more bit on top. */
  function SixBit(k: Oct, s: Lane, m: nat): (bit: nat)
    requires m < 6
    ensures bit <= 1
  {
    if s % 2 == 0 then KeyBit(k, FirstEntry(s) + m)
    else if m < 5 then KeyBit(k, FirstEntry(s) + 4 - m)
    else if And(k[s - 1], FIRST_BITS[s / 2]) != 0 then 1 else 0
  }

  lemma {:induction false} FromLeftBits(o: byte, k: Oct, a: nat, n: nat, m: nat)
    requires a + n <= 44 && m < n <= 6
    ensures Bit(FromLeft(o, k, a, n), 8 - n + m) == KeyBit(k, a + m)
  {
    hide KeyBit, Bit;
    var x := FromLeft(o, k, a, n - 1);
    ShiftedIn(x, KeyBit(k, a + n - 1), 8 - n + m);
    if m < n - 1 {
      FromLeftBits(o, k, a, n - 1, m);
    }
  }

  lemma {:induction false} FromRightBits(first: nat, k: Oct, a: nat, n: nat, m: nat)
    requires first <= 1 && a + n <= 44 && m <= n <= 5
    ensures Bit(FromRight(first, k, a, n), m) == if m == n then first else KeyBit(k, a + n - 1 - m)
  {
    hide KeyBit, Add8, Mul8;
    if n == 0 {
    } else {
      var x := FromRight(first, k, a, n - 1);
      FiveOnTop(first, k, a, n - 1);
      SmallPowers();
      NoOverflow(x, KeyBit(k, a + n - 1));
      Doubled(x, KeyBit(k, a + n - 1), m);
      if m > 0 {
        FromRightBits(first, k, a, n - 1, m - 1);
      }
    }
  }

  // The second loop

  lemma OthersStay(td: Oct, k: Oct, i: Lane, s: Lane)
    requires s != i
    ensures MixKey(td, k, i)[s] == td[s]
  {
    hide Xor, FromLeft, FromRight, And;
  }

  /** Every step changes its own byte only. */
  lemma {:induction false} OneByteEach(r: Half, k: Oct, n: nat, s: Lane)
    requires n <= 8
    ensures n <= s ==> MixKeys(r, k, n)[s] == Expand(r, 8)[s]
    ensures s < n ==> MixKeys(r, k, n)[s] == MixKey(MixKeys(r, k, s), k, s)[s]
  {
    hide MixKey, Expand;
    if n == 0 {
    } else {
      OneByteEach(r, k, n - 1, s);
      if s != n - 1 {
        OthersStay(MixKeys(r, k, n - 1), k, n - 1, s);
      }
    }
  }

  /** Bit m of the index of S-box s is a bit of the half and a bit of the key: six consecutive bits of the
      half, of which neighbours share two, as in the expansion of DES, with six bits of the key added. */
  lemma {:induction false} IndexBit(r: Half, k: Oct, s: Lane, m: nat)
    requires m < 6
    ensures Bit(MixKeys(r, k, 8)[s], m) == (HalfBit(r, (27 - 4 * s + m) % 32) + SixBit(k, s, m)) % 2
  {
    hide Bit, HalfBit, MixKeys, KeyBit, FromLeft, FromRight, Expand, And;
    OneByteEach(r, k, 8, s);
    OneByteEach(r, k, s, s);
    var td, q := MixKeys(r, k, s), s / 2;
    if s % 2 == 0 {
      var n := if s == 0 then 1 else s - 1;
      var o := FromLeft(td[n], k, FirstEntry(s), 6);
      Quartered(Xor(o, td[s]), m);
      BitOfXor(8, o, td[s], m + 2);
      FromLeftBits(td[n], k, FirstEntry(s), 6, m);
      EvenPlace(r, q, m);
    } else {
      var first := if And(k[s - 1], FIRST_BITS[q]) != 0 then 1 else 0;
      BitOfXor(8, td[s], FromRight(first, k, FirstEntry(s), 5), m);
      FromRightBits(first, k, FirstEntry(s), 5, m);
      OddPlace(r, q, m);
    }
  }

  /** The two keys agree on the 48 bits the round reads. */
  predicate AgreeOnTable(j: Oct, k: Oct) {
    && (forall a :: 0 <= a < 44 ==> (And(j[KEY_LANES[a]], KEY_BITS[a]) != 0 <==> And(k[KEY_LANES[a]], KEY_BITS[a]) != 0))
    && (forall q :: 0 <= q < 4 ==> (And(j[2 * q], FIRST_BITS[q]) != 0 <==> And(k[2 * q], FIRST_BITS[q]) != 0))
  }

  lemma WhereEntryGoes(a: nat) returns (s: Lane, m: nat)
    requires a < 44
    ensures m < 6 && forall k: Oct :: SixBit(k, s, m) == KeyBit(k, a)
  {
    hide KeyBit, And;
    var q, rest := a / 11, a % 11;
    s, m := if rest < 6 then 2 * q else 2 * q + 1, if rest < 6 then rest else 10 - rest;
    assert FirstEntry(s) == 11 * q + if rest < 6 then 0 else 6;
  }

  /** Whatever the data: the indices that two keys lead to are the same exactly if the keys agree on all
      48 bits of the tables. */
  lemma {:induction false} SameIndicesExactlyWhen(r: Half, j: Oct, k: Oct)
    ensures MixKeys(r, j, 8) == MixKeys(r, k, 8) <==> AgreeOnTable(j, k)
  {
    hide MixKeys, And, Bit, HalfBit;
    if MixKeys(r, j, 8) == MixKeys(r, k, 8) {
      forall a | 0 <= a < 44
        ensures And(j[KEY_LANES[a]], KEY_BITS[a]) != 0 <==> And(k[KEY_LANES[a]], KEY_BITS[a]) != 0
      {
        var s, m := WhereEntryGoes(a);
        SameSix(r, j, k, s, m);
        assert KeyBit(j, a) == SixBit(j, s, m) == SixBit(k, s, m) == KeyBit(k, a);
      }
      forall q | 0 <= q < 4
        ensures And(j[2 * q], FIRST_BITS[q]) != 0 <==> And(k[2 * q], FIRST_BITS[q]) != 0
      {
        SameSix(r, j, k, 2 * q + 1, 5);
        TopBit(j, q);
        TopBit(k, q);
      }
    }
    if AgreeOnTable(j, k) {
      forall s: Lane
        ensures MixKeys(r, j, 8)[s] == MixKeys(r, k, 8)[s]
      {
        SameByte(r, j, k, s);
      }
    }
  }

  lemma TopBit(k: Oct, q: nat)
    requires q < 4
    ensures SixBit(k, 2 * q + 1, 5) == if And(k[2 * q], FIRST_BITS[q]) != 0 then 1 else 0
  {
    hide And, KeyBit;
  }

  lemma {:induction false} SameSix(r: Half, j: Oct, k: Oct, s: Lane, m: nat)
    requires m < 6 && MixKeys(r, j, 8)[s] == MixKeys(r, k, 8)[s]
    ensures SixBit(j, s, m) == SixBit(k, s, m)
  {
    hide MixKeys, SixBit, Bit, HalfBit;
    IndexBit(r, j, s, m);
    IndexBit(r, k, s, m);
    SameParity(HalfBit(r, (27 - 4 * s + m) % 32), SixBit(j, s, m), SixBit(k, s, m));
  }

  lemma SameParity(h: nat, x: nat, y: nat)
    requires x <= 1 && y <= 1 && (h + x) % 2 == (h + y) % 2
    ensures x == y
  {
  }

  lemma {:induction false} SameByte(r: Half, j: Oct, k: Oct, s: Lane)
    requires AgreeOnTable(j, k)
    ensures MixKeys(r, j, 8)[s] == MixKeys(r, k, 8)[s]
  {
    hide MixKeys, And, Bit, HalfBit;
    SBoxIndicesFit(r, j, 8);
    SBoxIndicesFit(r, k, 8);
    assert Pow2(6) == 64;
    forall m | 0 <= m < 6
      ensures Bit(MixKeys(r, j, 8)[s], m) == Bit(MixKeys(r, k, 8)[s], m)
    {
      IndexBit(r, j, s, m);
      IndexBit(r, k, s, m);
      SixAgree(j, k, s, m);
    }
    SameBits(6, MixKeys(r, j, 8)[s], MixKeys(r, k, 8)[s]);
  }

  lemma SixAgree(j: Oct, k: Oct, s: Lane, m: nat)
    requires m < 6 && AgreeOnTable(j, k)
    ensures SixBit(j, s, m) == SixBit(k, s, m)
  {
    hide And;
    if s % 2 == 1 && m == 5 {
      assert s - 1 == 2 * (s / 2);
    }
  }

  // The third loop

  /** Which S-box step bit b of byte h of the other half comes from. */
  function Origin(h: nat, b: nat): Lane
    requires h < 4 && b < 8
  {
    if h == 0 then [4, 6, 2, 7, 5, 4, 1, 3][b]
    else if h == 1 then [2, 7, 4, 1, 6, 5, 3, 0][b]
    else if h == 2 then [2, 0, 6, 7, 3, 5, 1, 0][b]
    else [6, 0, 2, 5, 1, 7, 3, 4][b]
  }

  function MaskOf(h: nat, i: Lane): byte
    requires h < 4
  {
    if h == 0 then AND_BIT1[i] else if h == 1 then AND_BIT2[i] else if h == 2 then AND_BIT3[i] else AND_BIT4[i]
  }

  function BoxOf(h: nat): (box: bytes)
    requires h < 4
    ensures |box| == 64
  {
    if h == 0 then SBOX1 else if h == 1 then SBOX2 else if h == 2 then SBOX3 else SBOX4
  }

  lemma {:induction false} NibbleBits(x: nat)
    ensures Bit(x, 0) == x % 2 && Bit(x, 1) == x / 2 % 2 && Bit(x, 2) == x / 4 % 2 && Bit(x, 3) == x / 8 % 2
  {
    var y, z := x / 2 / 2, x / 2 / 2 / 2;
    assert x / 4 == y && x / 8 == z;
    assert Bit(x, 1) == Bit(x / 2, 0) && Bit(x / 2, 1) == Bit(y, 0) && Bit(y, 1) == Bit(z, 0);
    assert Bit(x, 2) == Bit(x / 2, 1) && Bit(x / 2, 2) == Bit(y, 1) && Bit(x, 3) == Bit(x / 2, 2);
  }

  lemma {:induction false} FourUp(x: nat, i: nat)
    ensures Bit(x, i + 4) == Bit(x / 16, i)
  {
    assert x / 16 == x / 4 / 4;
    Quartered(x, i + 2);
    Quartered(x / 4, i);
  }

  lemma {:induction false} ByteBits(x: byte, b: nat)
    requires b < 8
    ensures Bit(x, b) == [x % 2, x / 2 % 2, x / 4 % 2, x / 8 % 2, x / 16 % 2, x / 32 % 2, x / 64 % 2, x / 128 % 2][b]
  {
    hide Bit;
    var y: nat := x / 16;
    NibbleBits(x);
    NibbleBits(y);
    assert x / 32 == y / 2 && x / 64 == y / 4 && x / 128 == y / 8;
    if b >= 4 {
      FourUp(x, b - 4);
    }
  }

  /** The masks of a byte share out its eight bits among the steps. */
  lemma {:induction false} OneOrigin(h: nat, i: Lane, b: nat)
    requires h < 4 && b < 8
    ensures Bit(MaskOf(h, i), b) == if Origin(h, b) == i then 1 else 0
  {
    hide Bit;
    if h == 0 {
      OriginInFirst(i, b);
    } else if h == 1 {
      OriginInSecond(i, b);
    } else if h == 2 {
      OriginInThird(i, b);
    } else {
      OriginInFourth(i, b);
    }
  }

  lemma {:induction false} OriginInFirst(i: Lane, b: nat)
    requires b < 8
    ensures Bit(AND_BIT1[i], b) == if Origin(0, b) == i then 1 else 0
  {
    hide Bit;
    ByteBits(AND_BIT1[i], b);
  }

  lemma {:induction false} OriginInSecond(i: Lane, b: nat)
    requires b < 8
    ensures Bit(AND_BIT2[i], b) == if Origin(1, b) == i then 1 else 0
  {
    hide Bit;
    ByteBits(AND_BIT2[i], b);
  }

  lemma {:induction false} OriginInThird(i: Lane, b: nat)
    requires b < 8
    ensures Bit(AND_BIT3[i], b) == if Origin(2, b) == i then 1 else 0
  {
    hide Bit;
    ByteBits(AND_BIT3[i], b);
  }

  lemma {:induction false} OriginInFourth(i: Lane, b: nat)
    requires b < 8
    ensures Bit(AND_BIT4[i], b) == if Origin(3, b) == i then 1 else 0
  {
    hide Bit;
    ByteBits(AND_BIT4[i], b);
  }

  /** After n steps bit b of byte h has been changed by its one step, if that is among them. */
  lemma {:induction false} FoldBit(l: Half, td: Oct, n: nat, h: nat, b: nat)
    requires n <= 8 && h < 4 && b < 8
    ensures var t := Origin(h, b);
            Bit(Fold(l, td, n)[h], b) == if t < n then (Bit(l[h], b) + Bit(BoxOf(h)[td[t] % 64], b)) % 2 else Bit(l[h], b)
  {
    hide Bit, And, Xor, BoxOf, Origin, MaskOf, Fold;
    if n == 0 {
      NothingFolded(l, td);
    } else {
      FoldBit(l, td, n - 1, h, b);
      OneOrigin(h, n - 1, b);
      FoldStep(l, td, n, h);
      MaskedBit(Fold(l, td, n - 1)[h], MaskOf(h, n - 1), BoxOf(h)[td[n - 1] % 64], b);
    }
  }

  lemma {:induction false} NothingFolded(l: Half, td: Oct)
    ensures Fold(l, td, 0) == l
  {
  }

  lemma {:induction false} MaskedBit(x: byte, mask: byte, y: byte, b: nat)
    requires b < 8
    ensures Bit(Xor(x, And(mask, y)), b) == if Bit(mask, b) == 1 then (Bit(x, b) + Bit(y, b)) % 2 else Bit(x, b)
  {
    hide Bit;
    BitOfXor(8, x, And(mask, y), b);
    BitOfAnd(8, mask, y, b);
  }

  lemma FoldStep(l: Half, td: Oct, n: nat, h: nat)
    requires 0 < n <= 8 && h < 4
    ensures Fold(l, td, n)[h] == Xor(Fold(l, td, n - 1)[h], And(MaskOf(h, n - 1), BoxOf(h)[td[n - 1] % 64]))
  {
    hide And, Xor;
  }

  /** A round keeps one half and changes every bit of the other by one bit of one S-box, whose index is
      made of the half and the key and is always below 64. */
  lemma {:induction false} RoundBit(d: Oct, k: Oct, h: nat, b: nat)
    requires h < 4 && b < 8
    ensures Round(d, k)[..4] == d[4..]
    ensures var index := MixKeys(d[4..], k, 8)[Origin(h, b)];
            index < 64 && Bit(Round(d, k)[4 + h], b) == (Bit(d[h], b) + Bit(BoxOf(h)[index % 64], b)) % 2
  {
    hide MixKeys, Bit, Fold, BoxOf, Origin;
    var td := MixKeys(d[4..], k, 8);
    SBoxIndicesFit(d[4..], k, 8);
    FoldBit(d[..4], td, 8, h, b);
    assert Round(d, k)[4 + h] == Fold(d[..4], td, 8)[h];
  }

  // Key preparation

  /** Bit p of the 56-bit number that seven key bytes spell. */
  function KeyNumberBit(key: bytes, p: nat): nat
    requires |key| >= 7 && p < 56
  {
    Bit(key[6 - p / 8], p % 8)
  }

  lemma {:induction false} HalvedBit(x: byte, n: nat)
    ensures Halved(x, n) % 2 == Bit(x, n)
    decreases n
  {
    HalvedMoves(x, n, 0);
    assert Bit(Halved(x, n), 0) == Halved(x, n) % 2;
  }

  lemma {:induction false} HalvedMoves(x: byte, n: nat, i: nat)
    ensures Bit(Halved(x, n), i) == Bit(x, n + i)
    decreases n
  {
    if n == 0 {
    } else {
      HalvedMoves(x, n - 1, i + 1);
      assert Bit(Halved(x, n - 1), i + 1) == Bit(Halved(x, n - 1) / 2, i);
    }
  }

  /** Bit p has moved up one place with every later bit pushed into its byte. */
  lemma {:induction false} PushedBit(key: bytes, t: nat, p: nat)
    requires |key| >= 7 && p < t <= 56
    ensures Bit(PushBits(key, t)[6 - p % 7], (t - 1 - p) / 7) == KeyNumberBit(key, p)
  {
    hide Bit, Halved, Add8, Mul8;
    var out, s := PushBits(key, t - 1), t - 1;
    var x, bit, m := out[6 - s % 7], Halved(key[6 - s / 8], s % 8) % 2, 6 - s % 7;
    if p == s {
      PushedLow(x, bit);
      HalvedBit(key[6 - s / 8], s % 8);
    } else {
      PushedBit(key, t - 1, p);
      Places(s, p);
      if s % 7 == p % 7 {
        PushedUp(x, bit, (s - 1 - p) / 7);
      }
    }
  }

  lemma Places(s: nat, p: nat)
    requires p < s < 56
    ensures (s - p) / 7 == (s - 1 - p) / 7 + if s % 7 == p % 7 then 1 else 0
    ensures (s - p) / 7 < 8
  {
    var q, r := (s - p) / 7, (s - p) % 7;
    assert s - p == 7 * q + r;
    assert s == 7 * (s / 7) + s % 7 && p == 7 * (p / 7) + p % 7;
    if r == 0 {
      assert s - 1 - p == 7 * (q - 1) + 6;
    } else {
      assert s - 1 - p == 7 * q + (r - 1);
    }
  }

  lemma PushedLow(x: byte, bit: nat)
    requires bit <= 1
    ensures Bit(Add8(Mul8(2, x), bit), 0) == bit
  {
    PushedByte(x, bit);
    Doubled(x % 128, bit, 0);
  }

  lemma PushedByte(x: byte, bit: nat)
    requires bit <= 1
    ensures Add8(Mul8(2, x), bit) == 2 * (x % 128) + bit
  {
  }

  lemma PushedUp(x: byte, bit: nat, i: nat)
    requires bit <= 1 && i < 7
    ensures Bit(Add8(Mul8(2, x), bit), i + 1) == Bit(x, i)
  {
    PushedByte(x, bit);
    Doubled(x % 128, bit, i + 1);
    assert Pow2(7) == 128 && x == x % 128 + 128 * (x / 128);
    AboveIsIgnored(7, x % 128, x / 128, i);
  }

  /** Of the seven bytes, byte m takes every seventh bit of the key from bit 6 - m on, the last on the
      right. */
  lemma PushedInto(key: bytes, m: nat, j: nat)
    requires |key| >= 7 && m < 7 && j < 8
    ensures Bit(PushBits(key, 56)[m], 7 - j) == KeyNumberBit(key, 6 - m + 7 * j)
  {
    var p := 6 - m + 7 * j;
    assert p % 7 == 6 - m;
    assert 55 - p == 7 * (7 - j) + m && (55 - p) / 7 == 7 - j;
    PushedBit(key, 56, p);
  }

  /** Four turns to the right put the last but one nibble of a window in front. */
  lemma {:induction false} FourRightsShow(w: Half)
    ensures CycleOf(Rights(w, 4)) == [w[3] / 16, w[0] / 16, w[0] % 16, w[1] / 16, w[1] % 16, w[2] / 16, w[2] % 16]
  {
    hide Right, RightPair, ShiftRight;
    FourRights(w);
    RightTwice(w);
    RightTwice(RightPair(w));
    PairTwice(w[0], w[1], w[2], w[3]);
    NibblesOf(w[0], w[1], w[2], w[3]);
    assert w == [w[0], w[1], w[2], w[3]];
  }

  lemma RightTwice(w: Half)
    ensures Right(Right(w)) == RightPair(w)
  {
    hide ShiftRight;
    TwoRights(w);
    SecondByte(w[0], w[1], (w[3] / 16) % 2);
  }

  lemma SecondByte(a: byte, b: byte, bit: nat)
    requires bit <= 1
    ensures ShiftRight(ShiftRight(b, a, 1), a / 2 + bit * 128, 1) == ShiftRight(b, a, 2)
  {
    assert (a / 2 + bit * 128) % 2 == (a / 2) % 2;
    assert ShiftRight(b, a, 1) / 2 == b / 4 + (a % 2) * 64;
    assert a % 4 == 2 * ((a / 2) % 2) + a % 2;
  }

  lemma PairTwice(a: byte, b: byte, c: byte, d: byte)
    ensures RightPair(RightPair([a, b, c, d]))
            == [(d / 16) * 16 + a / 16, ShiftRight(b, a, 4), ShiftRight(c, b, 4), ShiftRight(d, c, 4)]
  {
    hide ShiftRight;
    ShiftRightTwice(c, b, a);
    ShiftRightTwice(d, c, b);
    SecondOfPair(a, b, (d / 16) % 4);
    FirstOfPair(a, c, d);
  }

  lemma SecondOfPair(a: byte, b: byte, t: nat)
    requires t <= 3
    ensures ShiftRight(ShiftRight(b, a, 2), a / 4 + t * 64, 2) == ShiftRight(b, a, 4)
  {
    assert (a / 4 + t * 64) % 4 == (a / 4) % 4;
    assert ShiftRight(b, a, 2) / 4 == b / 16 + (a % 4) * 16;
    assert a % 16 == 4 * ((a / 4) % 4) + a % 4;
  }

  lemma FirstOfPair(a: byte, c: byte, d: byte)
    ensures (a / 4 + ((d / 16) % 4) * 64) / 4 + ((ShiftRight(d, c, 2) / 16) % 4) * 64 == (d / 16) * 16 + a / 16
  {
    SixBitsOn(d, c % 4);
    assert (a / 4 + ((d / 16) % 4) * 64) / 4 == a / 16 + ((d / 16) % 4) * 16;
    assert d / 16 == 4 * (d / 64) + (d / 16) % 4;
  }

  lemma NibblesOf(a: byte, b: byte, c: byte, d: byte)
    ensures CycleOf([(d / 16) * 16 + a / 16, ShiftRight(b, a, 4), ShiftRight(c, b, 4), ShiftRight(d, c, 4)])
            == [d / 16, a / 16, a % 16, b / 16, b % 16, c / 16, c % 16]
  {
    OneNibble(b, a);
    OneNibble(c, b);
    OneNibble(d, c);
    assert ((d / 16) * 16 + a / 16) / 16 == d / 16 && ((d / 16) * 16 + a / 16) % 16 == a / 16;
  }

  lemma OneNibble(x: byte, y: byte)
    ensures ShiftRight(x, y, 4) / 16 == y % 16 && ShiftRight(x, y, 4) % 16 == x / 16
  {
  }

  lemma ArrangedNibbles(d: Oct)
    ensures var k := RightsKey(Arranged(d), 4);
            && CycleOf(k[..4]) == [d[3] / 16, d[0] / 16, d[0] % 16, d[1] / 16, d[1] % 16, d[2] / 16, d[2] % 16]
            && CycleOf(k[4..]) == [d[3] % 16, d[6] / 16, d[6] % 16, d[5] / 16, d[5] % 16, d[4] / 16, d[4] % 16]
  {
    hide Rights, CycleOf, Mul8;
    var e := Arranged(d);
    assert e[..4] == [d[0], d[1], d[2], d[3]] && e[4..] == [d[6], d[5], d[4], Mul8(16, d[3])];
    FourRightsShow(e[..4]);
    FourRightsShow(e[4..]);
    UpperNibble(d[3]);
  }

  /** The two cycles of a prepared key show every nibble of the seven bytes that the key's bits have been
      pushed into exactly once. */
  lemma {:induction false} PreparedNibbles(key: bytes)
    requires |key| >= 7
    ensures var d, k := PushBits(key, 56), Prepared(key);
            && CycleOf(k[..4]) == [d[3] / 16, d[0] / 16, d[0] % 16, d[1] / 16, d[1] % 16, d[2] / 16, d[2] % 16]
            && CycleOf(k[4..]) == [d[3] % 16, d[6] / 16, d[6] % 16, d[5] / 16, d[5] % 16, d[4] / 16, d[4] % 16]
  {
    hide PushBits, RightsKey, Arranged, CycleOf;
    ArrangedNibbles(PushBits(key, 56));
  }

  lemma UpperNibble(x: byte)
    ensures Mul8(16, x) / 16 == x % 16
  {
    assert Mul8(16, x) == 16 * (x % 16) by {
      assert x == 16 * (x / 16) + x % 16;
    }
  }

  /** A short key is the algorithm's part of the first half of the full key behind what is left of its
      last six bytes. */
  lemma ShortKeyParts(k: FullKey, algo: byte)
    ensures var n := if algo % 8 >= 6 then 0 else 6 - algo % 8;
            ShortKey(k, algo) == k[16..16 + n] + k[2 + n..9] + [0]
  {
  }

  /** Only bytes 9 to 16 of the full key matter for the middle cipher, and only the short key for the outer
      ones. */
  lemma KeyBytesUsed(d: Oct, k: FullKey, l: FullKey, algo: byte, mode: nat)
    ensures k[9..17] == l[9..17] ==> Des(d, k, mode) == Des(d, l, mode)
    ensures ShortKey(k, algo) == ShortKey(l, algo) ==> L2(d, k, algo) == L2(d, l, algo) && R2(d, k, algo) == R2(d, l, algo)
  {
    hide Rounds, Prepared, ShortKey, Round;
  }

  /** The second lowest bit of m exchanges the two halves of the key. */
  lemma KeyExchangedExactlyWhen(k: FullKey, m: byte)
    ensures KeyAfter(k, m) == k <==> And(m, 2) == 0 || k[..8] == k[8..16]
    ensures KeyAfter(KeyAfter(k, m), m) == k && KeyAfter(k, m)[16..] == k[16..]
    ensures And(m, 2) != 0 ==> KeyAfter(k, m)[..8] == k[8..16] && KeyAfter(k, m)[8..16] == k[..8]
  {
    hide And;
    SecondBit(m);
    var x := k[8..16] + k[..8] + k[16..];
    assert x[..8] == k[8..16] && x[8..16] == k[..8] && x[16..] == k[16..];
    assert k == k[..8] + k[8..16] + k[16..];
  }

  lemma SecondBit(m: byte)
    ensures And(m, 2) != 0 <==> (m / 2) % 2 == 1
  {
    hide AndBits;
    assert Pow2(1) == 2;
    TestsBit(8, m, 1);
    NibbleBits(m);
  }
}
