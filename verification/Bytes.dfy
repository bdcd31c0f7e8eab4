/** Bytes, big-endian words and duplicate-free lists: the vocabulary shared by every protocol below. */
module Bytes {

  /** A uint8_t. */
  type byte = x: int | 0 <= x < 256

  type bytes = seq<byte>

  /** A uint32_t. */
  type Word = x: int | 0 <= x < 0x1_0000_0000

  /** A uint16_t. */
  type Short = x: int | 0 <= x < 0x1_0000

  datatype Option<T> = None | Some(value: T)

  /** A 16-byte control word pair: CW0 is the first half, CW1 the second. */
  type ControlWord = c: bytes | |c| == 16 witness seq(16, _ => 0)

  /** The 8-byte identity of a peer. */
  type NodeId = n: bytes | |n| == 8 witness seq(8, _ => 0)

  function Zeros(n: nat): (r: bytes)
    ensures |r| == n && forall i :: 0 <= i < n ==> r[i] == 0
  {
    seq(n, _ => 0)
  }

  /** The size of a CCcam message buffer */
  const CC_MAXMSGSIZE := 0x400

  // Arithmetic on uint8_t wraps around.

  function Add8(a: int, b: int): byte {
    (a + b) % 256
  }

  function Sub8(a: int, b: int): byte {
    (a - b) % 256
  }

  function Mul8(a: int, b: int): byte {
    (a * b) % 256
  }

  type Int8 = x: int | -128 <= x < 128

  /** Conversion to int8_t */
  function ToInt8(x: int): (r: Int8)
    ensures -128 <= x < 128 ==> r == x
    ensures r <= x || x < -128
  {
    var m := x % 256;
    if m < 128 then m else m - 256
  }

  function Pow2(n: nat): (r: nat)
    ensures r >= 1
  {
    if n == 0 then 1 else 2 * Pow2(n - 1)
  }

  /** Exclusive or of the lowest w bits. */
  function XorBits(w: nat, a: nat, b: nat): (r: nat)
    ensures r < Pow2(w)
  {
    if w == 0 then 0
    else (if a % 2 == b % 2 then 0 else 1) + 2 * XorBits(w - 1, a / 2, b / 2)
  }

  function Xor(a: byte, b: byte): byte {
    XorBits(8, a, b)
  }

  /** Conjunction of the lowest w bits. */
  function AndBits(w: nat, a: nat, b: nat): (r: nat)
    ensures r < Pow2(w)
  {
    if w == 0 then 0
    else (if a % 2 == 1 && b % 2 == 1 then 1 else 0) + 2 * AndBits(w - 1, a / 2, b / 2)
  }

  function And(a: byte, b: byte): byte {
    AndBits(8, a, b)
  }

  /** XOR of all bytes of a string. */
  function XorAll(xs: bytes): byte {
    if xs == [] then 0 else Xor(XorAll(xs[..|xs| - 1]), xs[|xs| - 1])
  }

  lemma XorHalves(w: nat, a: nat, b: nat)
    requires w > 0
    ensures XorBits(w, a, b) / 2 == XorBits(w - 1, a / 2, b / 2)
    ensures XorBits(w, a, b) % 2 == 0 <==> a % 2 == b % 2
  {
  }

  lemma {:induction false} XorBitsAssociates(w: nat, a: nat, b: nat, c: nat)
    ensures XorBits(w, XorBits(w, a, b), c) == XorBits(w, a, XorBits(w, b, c))
  {
    if w == 0 {
    } else {
      var ab, bc := XorBits(w, a, b), XorBits(w, b, c);
      XorBitsAssociates(w - 1, a / 2, b / 2, c / 2);
      XorHalves(w, a, b);
      XorHalves(w, b, c);
      XorHalves(w, ab, c);
      XorHalves(w, a, bc);
      assert XorBits(w, ab, c) / 2 == XorBits(w, a, bc) / 2;
      assert XorBits(w, ab, c) % 2 == XorBits(w, a, bc) % 2;
    }
  }

  lemma {:induction false} XorBitsUnits(w: nat, a: nat, b: nat)
    requires a < Pow2(w)
    ensures XorBits(w, a, 0) == a && XorBits(w, a, a) == 0
    ensures XorBits(w, a, b) == XorBits(w, b, a)
  {
    if w == 0 {
    } else {
      XorBitsUnits(w - 1, a / 2, b / 2);
    }
  }

  lemma XorLaws(a: byte, b: byte, c: byte)
    ensures Xor(Xor(a, b), c) == Xor(a, Xor(b, c))
    ensures Xor(a, b) == Xor(b, a)
    ensures Xor(a, 0) == a && Xor(a, a) == 0
  {
    assert Pow2(8) == 256;
    XorBitsAssociates(8, a, b, c);
    XorBitsUnits(8, a, b);
  }

  lemma XorCancels(a: byte, b: byte)
    ensures Xor(Xor(a, b), b) == a && Xor(b, Xor(a, b)) == a
  {
    hide Xor;
    XorLaws(a, b, b);
    XorLaws(b, Xor(a, b), b);
    XorLaws(b, b, a);
  }

  /** Masking with the same key byte twice only leaves the two outer masks. */
  lemma XorRemask(x: byte, k: byte, s: byte, t: byte)
    ensures Xor(Xor(Xor(Xor(x, k), s), k), t) == Xor(Xor(x, s), t)
    ensures Xor(t, Xor(Xor(x, s), t)) == Xor(s, x)
  {
    hide Xor;
    var xk := Xor(x, k);
    XorLaws(xk, s, k);
    XorLaws(s, k, 0);
    XorLaws(xk, k, s);
    XorCancels(x, k);
    XorLaws(t, Xor(x, s), 0);
    XorCancels(Xor(x, s), t);
    XorLaws(x, s, 0);
  }

  // Single bits

  /** Bit i of x, counted from the lowest. */
  function Bit(x: nat, i: nat): (bit: nat)
    ensures bit <= 1
  {
    if i == 0 then x % 2 else Bit(x / 2, i - 1)
  }

  lemma {:induction false} BitOfXor(w: nat, a: nat, b: nat, i: nat)
    requires i < w
    ensures Bit(XorBits(w, a, b), i) == (Bit(a, i) + Bit(b, i)) % 2
  {
    XorHalves(w, a, b);
    if i == 0 {
    } else {
      BitOfXor(w - 1, a / 2, b / 2, i - 1);
    }
  }

  lemma {:induction false} BitOfAnd(w: nat, a: nat, b: nat, i: nat)
    requires i < w
    ensures Bit(AndBits(w, a, b), i) == Bit(a, i) * Bit(b, i)
  {
    AndHalves(w, a, b);
    if i == 0 {
    } else {
      BitOfAnd(w - 1, a / 2, b / 2, i - 1);
    }
  }

  lemma AndHalves(w: nat, a: nat, b: nat)
    requires w > 0
    ensures AndBits(w, a, b) / 2 == AndBits(w - 1, a / 2, b / 2)
    ensures AndBits(w, a, b) % 2 == (a % 2) * (b % 2)
  {
  }

  lemma {:induction false} NoBits(i: nat)
    ensures Bit(0, i) == 0
  {
    if i == 0 {
    } else {
      NoBits(i - 1);
    }
  }

  lemma {:induction false} HighBits(w: nat, x: nat, i: nat)
    requires x < Pow2(w) && w <= i
    ensures Bit(x, i) == 0
  {
    if w == 0 {
      NoBits(i);
    } else {
      HighBits(w - 1, x / 2, i - 1);
    }
  }

  /** Numbers with the same bits are equal. */
  lemma {:induction false} SameBits(w: nat, x: nat, y: nat)
    requires x < Pow2(w) && y < Pow2(w)
    requires forall i :: 0 <= i < w ==> Bit(x, i) == Bit(y, i)
    ensures x == y
  {
    if w == 0 {
    } else {
      assert Bit(x, 0) == Bit(y, 0);
      forall i | 0 <= i < w - 1
        ensures Bit(x / 2, i) == Bit(y / 2, i)
      {
        assert Bit(x, i + 1) == Bit(y, i + 1);
      }
      SameBits(w - 1, x / 2, y / 2);
    }
  }

  lemma {:induction false} AboveIsIgnored(w: nat, y: nat, z: nat, i: nat)
    requires i < w
    ensures Bit(y + Pow2(w) * z, i) == Bit(y, i)
  {
    var q := Pow2(w - 1) * z;
    assert Pow2(w) * z == 2 * q;
    assert (y + 2 * q) % 2 == y % 2 && (y + 2 * q) / 2 == y / 2 + q;
    if i > 0 {
      AboveIsIgnored(w - 1, y / 2, z, i - 1);
    }
  }

  /** A test with a mask of one bit. */
  lemma {:induction false} TestsBit(w: nat, a: nat, i: nat)
    requires i < w
    ensures AndBits(w, a, Pow2(i)) != 0 <==> Bit(a, i) == 1
  {
    if i == 0 {
      NothingInCommon(w - 1, a / 2);
    } else {
      AndHalves(w, a, Pow2(i));
      TestsBit(w - 1, a / 2, i - 1);
    }
  }

  lemma {:induction false} NothingInCommon(w: nat, a: nat)
    ensures AndBits(w, a, 0) == 0
  {
    if w == 0 {
    } else {
      NothingInCommon(w - 1, a / 2);
    }
  }

  // Big-endian numbers (b2i, i2b_buf)

  /** The n lowest bytes of x, most significant first. */
  function BigEndian(n: nat, x: nat): (b: bytes)
    ensures |b| == n
  {
    if n == 0 then [] else BigEndian(n - 1, x / 256) + [x % 256]
  }

  function Value(b: bytes): (x: nat)
    ensures x < Pow2(8 * |b|)
  {
    if b == [] then 0
    else
      assert Pow2(8 * |b|) == 256 * Pow2(8 * (|b| - 1)) by { Pow2Byte(8 * (|b| - 1)); }
      Value(b[..|b| - 1]) * 256 + b[|b| - 1]
  }

  lemma Pow2Byte(n: nat)
    ensures Pow2(n + 8) == 256 * Pow2(n)
  {
    assert Pow2(n + 2) == 4 * Pow2(n) && Pow2(n + 4) == 4 * Pow2(n + 2);
    assert Pow2(n + 6) == 4 * Pow2(n + 4);
  }

  lemma WordSizes()
    ensures Pow2(16) == 0x1_0000 && Pow2(24) == 0x100_0000 && Pow2(32) == 0x1_0000_0000
  {
    Pow2Byte(8);
    Pow2Byte(16);
    Pow2Byte(24);
  }

  lemma {:induction false} ValueOfBigEndian(n: nat, x: nat)
    requires x < Pow2(8 * n)
    ensures Value(BigEndian(n, x)) == x
  {
    if n == 0 {
    } else {
      Pow2Byte(8 * (n - 1));
      ValueOfBigEndian(n - 1, x / 256);
      var b := BigEndian(n, x);
      assert b[..n - 1] == BigEndian(n - 1, x / 256);
    }
  }

  // Shifts across byte boundaries

  /** Byte a after a shift to the right by k = 1, 2 or 4 bits that takes in the low bits of b. */
  function ShiftRight(a: byte, b: byte, k: nat): byte {
    if k == 1 then a / 2 + (b % 2) * 128
    else if k == 2 then a / 4 + (b % 4) * 64
    else a / 16 + (b % 16) * 16
  }

  /** Byte a after a shift to the left by k = 1, 2 or 4 bits that takes in the high bits of b. */
  function ShiftLeft(a: byte, b: byte, k: nat): byte {
    if k == 1 then (a % 128) * 2 + b / 128
    else if k == 2 then (a % 64) * 4 + b / 64
    else (a % 16) * 16 + b / 16
  }

  /** A one-bit shift and back: a with its right neighbour r and left neighbour l. */
  lemma ShiftsUndo(a: byte, r: byte, l: byte)
    ensures ShiftLeft(ShiftRight(a, l, 1), ShiftRight(r, a, 1), 1) == a
    ensures ShiftRight(ShiftLeft(a, r, 1), ShiftLeft(l, a, 1), 1) == a
  {
    assert ShiftRight(r, a, 1) / 128 == a % 2 && ShiftRight(a, l, 1) % 128 == a / 2;
    assert ShiftLeft(l, a, 1) % 2 == a / 128 && ShiftLeft(a, r, 1) / 2 == a % 128;
  }

  /** One byte a of two equal shifts to the right after each other; b and c stand to its left. */
  lemma ShiftRightTwice(a: byte, b: byte, c: byte)
    ensures ShiftRight(ShiftRight(a, b, 1), ShiftRight(b, c, 1), 1) == ShiftRight(a, b, 2)
    ensures ShiftRight(ShiftRight(a, b, 2), ShiftRight(b, c, 2), 2) == ShiftRight(a, b, 4)
    ensures ShiftRight(ShiftRight(a, b, 4), ShiftRight(b, c, 4), 4) == b
  {
    OneBitTwice(a, b, c);
    TwoBitsTwice(a, b, c);
    FourBitsTwice(a, b, c);
  }

  lemma OneBitTwice(a: byte, b: byte, c: byte)
    ensures ShiftRight(ShiftRight(a, b, 1), ShiftRight(b, c, 1), 1) == ShiftRight(a, b, 2)
  {
    assert ShiftRight(a, b, 1) / 2 == a / 4 + (b % 2) * 64;
    assert ShiftRight(b, c, 1) % 2 == (b / 2) % 2;
    assert b % 4 == 2 * ((b / 2) % 2) + b % 2;
  }

  lemma TwoBitsTwice(a: byte, b: byte, c: byte)
    ensures ShiftRight(ShiftRight(a, b, 2), ShiftRight(b, c, 2), 2) == ShiftRight(a, b, 4)
  {
    assert ShiftRight(a, b, 2) / 4 == a / 16 + (b % 4) * 16;
    assert ShiftRight(b, c, 2) % 4 == (b / 4) % 4;
    assert b % 16 == 4 * ((b / 4) % 4) + b % 4;
  }

  lemma FourBitsTwice(a: byte, b: byte, c: byte)
    ensures ShiftRight(ShiftRight(a, b, 4), ShiftRight(b, c, 4), 4) == b
  {
    assert ShiftRight(a, b, 4) / 16 == b % 16;
    assert ShiftRight(b, c, 4) % 16 == b / 16;
  }

  ghost predicate NoDuplicates<T>(xs: seq<T>) {
    forall i, j :: 0 <= i < j < |xs| ==> xs[i] != xs[j]
  }

  /** The set of the elements of a list. */
  function Elements<T>(xs: seq<T>): set<T> {
    set x | x in xs
  }

  /** A duplicate-free list has as many entries as elements. */
  lemma {:induction false} NoDuplicatesCount<T>(xs: seq<T>)
    ensures |Elements(xs)| <= |xs|
    ensures NoDuplicates(xs) <==> |Elements(xs)| == |xs|
  {
    if xs == [] {
    } else {
      var front, last := xs[..|xs| - 1], xs[|xs| - 1];
      NoDuplicatesCount(front);
      assert xs == front + [last];
      assert Elements(xs) == Elements(front) + {last};
      if last in front {
        var i :| 0 <= i < |front| && front[i] == last;
        assert xs[i] == xs[|xs| - 1];
        assert Elements(xs) == Elements(front);
      } else {
        assert NoDuplicates(front) ==> NoDuplicates(xs);
        assert NoDuplicates(xs) ==> NoDuplicates(front) by {
          assert forall i :: 0 <= i < |front| ==> front[i] == xs[i];
        }
      }
    }
  }

  /** A duplicate-free list drawn from a set is no longer than the set is large. */
  lemma SubsetBound<T>(xs: seq<T>, universe: set<T>)
    requires NoDuplicates(xs) && Elements(xs) <= universe
    ensures |xs| <= |universe|
  {
    NoDuplicatesCount(xs);
    SubsetSize(Elements(xs), universe);
  }

  lemma {:induction false} SubsetSize<T>(a: set<T>, b: set<T>)
    requires a <= b
    ensures |a| <= |b|
  {
    if a == {} {
    } else {
      var x :| x in a;
      SubsetSize(a - {x}, b - {x});
    }
  }
}
