/** A 28-bit cycle kept in a 32-bit window of four bytes: the rotations of the Cryptoworks
    key halves (oscam/module-emulator-cryptoworks.c:173-277). */
module KeyWindow {
  import opened Bytes

  type Half = h: bytes | |h| == 4 witness [0, 0, 0, 0]

  /** ls_des_key, one bit: the lowest bit comes from bit 27. */
  function Left(w: Half): Half {
    [ShiftLeft(w[0], w[1], 1), ShiftLeft(w[1], w[2], 1), ShiftLeft(w[2], w[3], 1), (w[3] % 128) * 2 + (w[0] / 8) % 2]
  }

  /** rs_des_key, one bit: the highest bit comes from bit 4. */
  function Right(w: Half): Half {
    [w[0] / 2 + ((w[3] / 16) % 2) * 128, ShiftRight(w[1], w[0], 1), ShiftRight(w[2], w[1], 1), ShiftRight(w[3], w[2], 1)]
  }

  /** The window shows a 28-bit cycle: its highest four bits repeat its lowest four. */
  predicate Periodic(w: Half) {
    w[0] / 16 == w[3] % 16
  }

  /** The two end bytes of a window; bit is the one that comes in at the top. */
  lemma TopByte(a: byte, bit: nat)
    requires bit <= 1
    ensures (a / 2 + bit * 128) / 16 == (a / 16) / 2 + bit * 8
    ensures ((a / 2 + bit * 128) / 8) % 2 == (a / 16) % 2
    ensures (a / 2 + bit * 128) % 128 == a / 2
  {
    assert (a / 2 + bit * 128) / 8 == a / 16 + bit * 16;
  }

  lemma BottomByte(d: byte)
    ensures (d / 2) % 16 == (d % 16) / 2 + ((d / 16) % 2) * 8
    ensures (d % 16) % 2 == d % 2
  {
    assert d == 32 * (d / 32) + 16 * ((d / 16) % 2) + d % 16;
  }

  lemma LowBits(d: byte, c: byte)
    ensures ShiftRight(d, c, 1) % 16 == (d / 2) % 16
    ensures ShiftRight(d, c, 1) % 128 == d / 2
    ensures ShiftRight(d, c, 1) / 128 == c % 2
  {
  }

  lemma LeftUndoesRight(w: Half)
    requires Periodic(w)
    ensures Periodic(Right(w)) && Left(Right(w)) == w
  {
    var v, bit := Right(w), (w[3] / 16) % 2;
    TopByte(w[0], bit);
    BottomByte(w[3]);
    LowBits(w[3], w[2]);
    LowBits(w[1], w[0]);
    ShiftsUndo(w[1], w[2], w[0]);
    ShiftsUndo(w[2], w[3], w[1]);
    assert Left(v)[0] == w[0] && Left(v)[1] == w[1] && Left(v)[2] == w[2] && Left(v)[3] == w[3];
  }

  lemma RightUndoesLeft(w: Half)
    requires Periodic(w)
    ensures Periodic(Left(w)) && Right(Left(w)) == w
  {
    var v := Left(w);
    LeftEnds(w[0], w[1], w[3]);
    ShiftsUndo(w[1], w[2], w[0]);
    ShiftsUndo(w[2], w[3], w[1]);
    LastByte(w[2], w[3], (w[0] / 8) % 2);
    assert Right(v)[0] == w[0] && Right(v)[1] == w[1] && Right(v)[2] == w[2] && Right(v)[3] == w[3];
  }

  lemma HighEnd(a: byte, b: byte)
    ensures ShiftLeft(a, b, 1) / 16 == (a / 8) % 16 && ShiftLeft(a, b, 1) / 2 == a % 128
    ensures (a / 8) % 16 == ((a / 16) % 8) * 2 + (a / 8) % 2
  {
    assert ShiftLeft(a, b, 1) / 2 == a % 128;
    assert ShiftLeft(a, b, 1) / 16 == (a % 128) / 8;
    assert a / 8 == 16 * (a / 128) + (a % 128) / 8;
    EighthsOf(a);
  }

  lemma EighthsOf(a: byte)
    ensures (a / 8) % 16 == ((a / 16) % 8) * 2 + (a / 8) % 2
  {
    assert a / 8 == 2 * (a / 16) + (a / 8) % 2;
    assert a / 16 == 8 * (a / 128) + (a / 16) % 8;
  }

  lemma LowEnd(d: byte, bit: nat)
    requires bit <= 1
    ensures ((d % 128) * 2 + bit) % 16 == (d % 8) * 2 + bit
    ensures (((d % 128) * 2 + bit) / 16) % 2 == (d / 8) % 2
  {
    Eighth(d);
    assert (d % 128) * 2 + bit == 16 * ((d % 128) / 8) + (d % 8) * 2 + bit;
  }

  lemma Eighth(d: byte)
    ensures (d % 128) % 8 == d % 8 && ((d % 128) / 8) % 2 == (d / 8) % 2
  {
    assert d / 8 == 16 * (d / 128) + (d % 128) / 8;
  }

  lemma Nibble(n: nat, d: byte)
    requires n == d % 16
    ensures n % 8 == d % 8 && n / 8 == (d / 8) % 2
  {
  }

  lemma LeftEnds(a: byte, b: byte, d: byte)
    requires a / 16 == d % 16
    ensures var x, y := ShiftLeft(a, b, 1), (d % 128) * 2 + (a / 8) % 2;
            x / 16 == y % 16 && x / 2 + ((y / 16) % 2) * 128 == a
  {
    hide ShiftLeft;
    HighEnd(a, b);
    LowEnd(d, (a / 8) % 2);
    Nibble(a / 16, d);
  }

  lemma LastByte(c: byte, d: byte, bit: nat)
    requires bit <= 1
    ensures ShiftRight((d % 128) * 2 + bit, ShiftLeft(c, d, 1), 1) == d
  {
  }

  function Lefts(w: Half, n: nat): Half {
    if n == 0 then w else Left(Lefts(w, n - 1))
  }

  function Rights(w: Half, n: nat): Half {
    if n == 0 then w else Right(Rights(w, n - 1))
  }

  lemma {:induction false} StaysPeriodic(w: Half, n: nat)
    requires Periodic(w)
    ensures Periodic(Lefts(w, n)) && Periodic(Rights(w, n))
  {
    hide Left, Right, Periodic;
    if n == 0 {
    } else {
      StaysPeriodic(w, n - 1);
      RightUndoesLeft(Lefts(w, n - 1));
      LeftUndoesRight(Rights(w, n - 1));
    }
  }

  lemma {:induction false} LeftsAdd(w: Half, m: nat, n: nat)
    ensures Lefts(Lefts(w, m), n) == Lefts(w, m + n)
  {
    hide Left;
    if n == 0 {
    } else {
      LeftsAdd(w, m, n - 1);
    }
  }

  /** Turning right takes back turns to the left. */
  lemma {:induction false} RightsUndoLefts(w: Half, m: nat, n: nat)
    requires Periodic(w) && n <= m
    ensures Rights(Lefts(w, m), n) == Lefts(w, m - n)
  {
    hide Left, Right, Periodic;
    if n == 0 {
    } else {
      RightsUndoLefts(w, m, n - 1);
      StaysPeriodic(w, m - n);
      RightUndoesLeft(Lefts(w, m - n));
    }
  }

  /** The window moved by four places. */
  function LeftNibble(w: Half): Half {
    [ShiftLeft(w[0], w[1], 4), ShiftLeft(w[1], w[2], 4), ShiftLeft(w[2], w[3], 4), (w[3] % 16) * 16 + w[0] % 16]
  }

  function LeftPair(w: Half): Half {
    [ShiftLeft(w[0], w[1], 2), ShiftLeft(w[1], w[2], 2), ShiftLeft(w[2], w[3], 2), (w[3] % 64) * 4 + (w[0] / 4) % 4]
  }

  lemma ShiftTwice(a: byte, b: byte, c: byte)
    ensures ShiftLeft(ShiftLeft(a, b, 1), ShiftLeft(b, c, 1), 1) == ShiftLeft(a, b, 2)
    ensures ShiftLeft(ShiftLeft(a, b, 2), ShiftLeft(b, c, 2), 2) == ShiftLeft(a, b, 4)
  {
    ShiftOneTwice(a, b, c);
    ShiftTwoTwice(a, b, c);
  }

  lemma ShiftOneTwice(a: byte, b: byte, c: byte)
    ensures ShiftLeft(ShiftLeft(a, b, 1), ShiftLeft(b, c, 1), 1) == ShiftLeft(a, b, 2)
  {
    assert ShiftLeft(a, b, 1) % 128 == (a % 64) * 2 + b / 128;
    assert ShiftLeft(b, c, 1) / 128 == (b % 128) / 64;
    assert b / 64 == (b / 128) * 2 + (b % 128) / 64;
  }

  lemma ShiftTwoTwice(a: byte, b: byte, c: byte)
    ensures ShiftLeft(ShiftLeft(a, b, 2), ShiftLeft(b, c, 2), 2) == ShiftLeft(a, b, 4)
  {
    assert ShiftLeft(a, b, 2) % 64 == (a % 16) * 4 + b / 64;
    assert ShiftLeft(b, c, 2) / 64 == (b % 64) / 16;
    assert b / 16 == (b / 64) * 4 + (b % 64) / 16;
  }

  /** The last byte of a window, which takes in t from the first one. */
  lemma LastByteOnce(d: byte, t: nat)
    requires t <= 1
    ensures ((d % 128) * 2 + t) % 128 == (d % 64) * 2 + t
    ensures ((d % 128) * 2 + t) / 128 == (d % 128) / 64
  {
    var q, r: int := (d % 128) / 64, d % 64;
    assert d % 128 == 64 * q + r;
    assert (d % 128) * 2 + t == 128 * q + (2 * r + t);
  }

  lemma LastByteTwice(d: byte, t: nat)
    requires t <= 3
    ensures ((d % 64) * 4 + t) % 64 == (d % 16) * 4 + t
    ensures ((d % 64) * 4 + t) / 64 == (d % 64) / 16
  {
    assert d % 64 == 16 * ((d % 64) / 16) + d % 16;
  }

  /** What the first byte hands over after one place, and after two. */
  lemma HandedOver(a: byte, b: byte)
    ensures (ShiftLeft(a, b, 1) / 8) % 2 == (a / 4) % 2
    ensures (ShiftLeft(a, b, 2) / 4) % 4 == a % 4
  {
    HandedOverOne(a, b);
    assert ShiftLeft(a, b, 2) / 4 == a % 64;
  }

  lemma HandedOverOne(a: byte, b: byte)
    ensures (ShiftLeft(a, b, 1) / 8) % 2 == (a / 4) % 2
  {
    assert ShiftLeft(a, b, 1) / 8 == (a % 128) / 4;
    Quarters(a);
  }

  lemma Quarters(a: byte)
    ensures ((a % 128) / 4) % 2 == (a / 4) % 2
  {
    assert a / 4 == 32 * (a / 128) + (a % 128) / 4;
  }

  lemma LowParts(a: byte)
    ensures (a / 4) % 4 == ((a / 8) % 2) * 2 + (a / 4) % 2
    ensures a % 16 == ((a / 4) % 4) * 4 + a % 4
  {
    assert a / 8 == (a / 4) / 2 && a / 8 == 2 * (a / 16) + (a / 8) % 2;
  }

  lemma LastPair(a: byte, b: byte, d: byte)
    ensures var x, y := ShiftLeft(a, b, 1), (d % 128) * 2 + (a / 8) % 2;
            (y % 128) * 2 + (x / 8) % 2 == (d % 64) * 4 + (a / 4) % 4
  {
    hide ShiftLeft;
    HandedOver(a, b);
    LastByteOnce(d, (a / 8) % 2);
    LowParts(a);
  }

  lemma LastNibble(a: byte, b: byte, d: byte)
    ensures var x, y := ShiftLeft(a, b, 2), (d % 64) * 4 + (a / 4) % 4;
            (y % 64) * 4 + (x / 4) % 4 == (d % 16) * 16 + a % 16
  {
    hide ShiftLeft;
    HandedOver(a, b);
    LastByteTwice(d, (a / 4) % 4);
    LowParts(a);
  }

  /** The third byte sees only the high bits of the last one. */
  lemma ThirdByte(c: byte, d: byte, t: nat)
    ensures t <= 1 ==> ShiftLeft(ShiftLeft(c, d, 1), (d % 128) * 2 + t, 1) == ShiftLeft(c, d, 2)
    ensures t <= 3 ==> ShiftLeft(ShiftLeft(c, d, 2), (d % 64) * 4 + t, 2) == ShiftLeft(c, d, 4)
  {
    ShiftTwice(c, d, 0);
    if t <= 1 {
      LastByteOnce(d, t);
      LastByteOnce(d, 0);
    }
    if t <= 3 {
      LastByteTwice(d, t);
      LastByteTwice(d, 0);
    }
  }

  lemma {:induction false} FourLefts(w: Half)
    ensures Lefts(w, 4) == LeftNibble(w)
  {
    hide Left;
    PairIsTwo(w);
    PairIsTwo(LeftPair(w));
    LeftsAdd(w, 2, 2);
    PairTwice(w);
  }

  lemma {:induction false} PairIsTwo(w: Half)
    ensures Lefts(w, 2) == LeftPair(w)
  {
    hide ShiftLeft;
    ShiftTwice(w[0], w[1], w[2]);
    ShiftTwice(w[1], w[2], w[3]);
    ThirdByte(w[2], w[3], (w[0] / 8) % 2);
    LastPair(w[0], w[1], w[3]);
    assert Lefts(w, 1) == Left(Lefts(w, 0));
  }

  lemma PairTwice(w: Half)
    ensures LeftPair(LeftPair(w)) == LeftNibble(w)
  {
    hide ShiftLeft;
    ShiftTwice(w[0], w[1], w[2]);
    ShiftTwice(w[1], w[2], w[3]);
    ThirdByte(w[2], w[3], (w[0] / 4) % 4);
    LastNibble(w[0], w[1], w[3]);
  }

  type NibbleValue = x: int | 0 <= x < 16

  function Two(a: int, b: int): int {
    a * 16 + b
  }

  /** The 28-bit cycle as seven nibbles. */
  type Cycle = c: seq<NibbleValue> | |c| == 7 witness [0, 0, 0, 0, 0, 0, 0]

  function Window(c: Cycle): Half {
    [Two(c[0], c[1]), Two(c[2], c[3]), Two(c[4], c[5]), Two(c[6], c[0])]
  }

  function CycleOf(w: Half): Cycle {
    [w[0] / 16, w[0] % 16, w[1] / 16, w[1] % 16, w[2] / 16, w[2] % 16, w[3] / 16]
  }

  lemma TwoParts(a: NibbleValue, b: NibbleValue, c: NibbleValue, d: NibbleValue)
    ensures Two(a, b) % 16 == b && Two(a, b) < 256
    ensures ShiftLeft(Two(a, b), Two(c, d), 4) == Two(b, c)
  {
    assert Two(a, b) % 16 == b && Two(c, d) / 16 == c;
  }

  lemma LeftTurnsCycle(c: Cycle)
    ensures Lefts(Window(c), 4) == Window(c[1..] + [c[0]])
  {
    hide Lefts, ShiftLeft, Two;
    FourLefts(Window(c));
    TwoParts(c[0], c[1], c[2], c[3]);
    TwoParts(c[2], c[3], c[4], c[5]);
    TwoParts(c[4], c[5], c[6], c[0]);
    TwoParts(c[6], c[0], 0, 0);
    var w := Window(c);
    assert LeftNibble(w)[3] == Two(c[0], c[1]) by { SixteenTimes(c[0], c[1]); }
  }

  lemma SixteenTimes(a: NibbleValue, b: NibbleValue)
    ensures a * 16 + b == Two(a, b)
  {
  }

  /** Twenty-eight places are a full turn. */
  lemma {:induction false} FullTurn(w: Half)
    requires Periodic(w)
    ensures Lefts(w, 28) == w
  {
    hide Lefts, Window;
    var c := CycleOf(w);
    assert Window(c) == w by { WindowOfCycle(w); }
    SevenTurns(c);
  }

  lemma WindowOfCycle(w: Half)
    requires Periodic(w)
    ensures Window(CycleOf(w)) == w
  {
  }

  /** c turned by n nibbles */
  function Turned(c: Cycle, n: nat): Cycle
    requires n <= 7
  {
    c[n..] + c[..n]
  }

  lemma {:induction false} NibbleTurns(c: Cycle, n: nat)
    requires n <= 7
    ensures Lefts(Window(c), 4 * n) == Window(Turned(c, n))
  {
    hide Window, Lefts;
    if n == 0 {
      assert Turned(c, 0) == c;
      NoLefts(Window(c));
    } else {
      NibbleTurns(c, n - 1);
      var t := Turned(c, n - 1);
      LeftTurnsCycle(t);
      LeftsAdd(Window(c), 4 * (n - 1), 4);
      assert t[1..] + [t[0]] == Turned(c, n);
    }
  }

  lemma {:induction false} NoLefts(w: Half)
    ensures Lefts(w, 0) == w
  {
  }

  lemma SevenTurns(c: Cycle)
    ensures Lefts(Window(c), 28) == Window(c)
  {
    hide Window, Lefts;
    NibbleTurns(c, 7);
    assert Turned(c, 7) == c;
  }

  // Four places to the right make any window periodic

  function RightPair(w: Half): Half {
    [w[0] / 4 + ((w[3] / 16) % 4) * 64, ShiftRight(w[1], w[0], 2), ShiftRight(w[2], w[1], 2), ShiftRight(w[3], w[2], 2)]
  }

  lemma FirstPair(a: byte, c: byte, d: byte)
    ensures (a / 2 + ((d / 16) % 2) * 128) / 2 + ((ShiftRight(d, c, 1) / 16) % 2) * 128 == a / 4 + ((d / 16) % 4) * 64
  {
    assert (a / 2 + ((d / 16) % 2) * 128) / 2 == a / 4 + ((d / 16) % 2) * 64;
    BitFive(d, c % 2);
  }

  lemma BitFive(d: byte, t: nat)
    requires t <= 1
    ensures ((d / 2 + t * 128) / 16) % 2 == (d / 32) % 2
    ensures (d / 16) % 4 == ((d / 32) % 2) * 2 + (d / 16) % 2
  {
    assert (d / 2 + t * 128) / 16 == d / 32 + t * 8;
    assert d / 16 == 2 * (d / 32) + (d / 16) % 2;
  }

  lemma TwoRights(w: Half)
    ensures Right(Right(w))[0] == RightPair(w)[0] && Right(Right(w))[2] == RightPair(w)[2]
    ensures Right(Right(w))[3] == RightPair(w)[3]
  {
    hide ShiftRight;
    FirstPair(w[0], w[2], w[3]);
    ShiftRightTwice(w[2], w[1], w[0]);
    ShiftRightTwice(w[3], w[2], w[1]);
  }

  lemma EndsOfPair(a: byte, c: byte, d: byte)
    ensures (a / 4 + ((ShiftRight(d, c, 2) / 16) % 4) * 64) / 16 == a / 64 + (d / 64) * 4
    ensures ShiftRight(d, c, 4) % 16 == d / 16
  {
    SixBitsOn(d, c % 4);
    assert (a / 4 + (d / 64) * 64) / 16 == a / 64 + (d / 64) * 4;
    assert ShiftRight(d, c, 4) % 16 == d / 16;
  }

  lemma SixBitsOn(d: byte, t: nat)
    requires t <= 3
    ensures ((d / 4 + t * 64) / 16) % 4 == d / 64
  {
    assert (d / 4 + t * 64) / 16 == d / 64 + t * 4;
  }

  lemma TopOfPair(a: byte, d: byte)
    ensures (a / 4 + ((d / 16) % 4) * 64) / 64 + (d / 64) * 4 == d / 16
  {
    assert (a / 4 + ((d / 16) % 4) * 64) / 64 == (d / 16) % 4;
  }

  lemma {:induction false} FourRightsArePeriodic(w: Half)
    ensures Periodic(Rights(w, 4))
  {
    hide Right, ShiftRight;
    var v := Right(Right(w));
    TwoRights(w);
    TwoRights(v);
    ShiftRightTwice(w[3], w[2], w[1]);
    EndsOfPair(v[0], w[2], w[3]);
    TopOfPair(w[0], w[3]);
    assert Rights(w, 4) == Right(Right(v)) by { FourRights(w); }
  }

  lemma {:induction false} FourRights(w: Half)
    ensures Rights(w, 4) == Right(Right(Right(Right(w))))
  {
    hide Right;
    assert Rights(w, 1) == Right(Rights(w, 0));
    assert Rights(w, 2) == Right(Rights(w, 1));
    assert Rights(w, 3) == Right(Rights(w, 2));
  }
}
