/** The gbox buffer cipher: two 8-byte windows mixed under a rotating 4-byte key, and an
    XOR chain over the whole buffer (oscam/module-gbox-helper.c:64-224). */
module GboxCipher {
  import opened Bytes

  const LOOKUP_TABLE: bytes := [
    0x25, 0x38, 0xD4, 0xCD, 0x17, 0x7A, 0x5E, 0x6C, 0x52, 0x42, 0xFE, 0x68, 0xAB, 0x3F, 0xF7, 0xBE,
    0x47, 0x57, 0x71, 0xB0, 0x23, 0xC1, 0x26, 0x6C, 0x41, 0xCE, 0x94, 0x37, 0x45, 0x04, 0xA2, 0xEA,
    0x07, 0x58, 0x35, 0x55, 0x08, 0x2A, 0x0F, 0xE7, 0xAC, 0x76, 0xF0, 0xC1, 0xE6, 0x09, 0x10, 0xDD,
    0xC5, 0x8D, 0x2E, 0xD9, 0x03, 0x9C, 0x3D, 0x2C, 0x4D, 0x41, 0x0C, 0x5E, 0xDE, 0xE4, 0x90, 0xAE]

  type Pass = p: bytes | |p| == 4 witness [0, 0, 0, 0]

  type Window = w: bytes | |w| == 8 witness [0, 0, 0, 0, 0, 0, 0, 0]

  function Lookup(x: byte): byte {
    assert |LOOKUP_TABLE| == 64;
    LOOKUP_TABLE[x % 64]
  }

  // Key rotation by one bit

  function RotateRight(p: Pass): Pass {
    Turned(p, 1)
  }

  /** Rotation to the right by k = 1, 2 or 4 bits. */
  function Turned(p: Pass, k: nat): Pass {
    [ShiftRight(p[0], p[3], k), ShiftRight(p[1], p[0], k), ShiftRight(p[2], p[1], k), ShiftRight(p[3], p[2], k)]
  }

  function RotateLeft(p: Pass): Pass {
    [ShiftLeft(p[0], p[1], 1), ShiftLeft(p[1], p[2], 1), ShiftLeft(p[2], p[3], 1), ShiftLeft(p[3], p[0], 1)]
  }

  // One mixing step: the byte after j is changed as a function of byte j and the key

  /** Which of the two mixing rules: the one of gbox_encrypt8 or the one of gbox_encryptA. */
  datatype Rule = Eight | A

  function Forward(rule: Rule, w: Window, j: nat, p: Pass): Window
    requires j < 8
  {
    var x, y := w[j], w[(j + 1) % 8];
    w[(j + 1) % 8 :=
      match rule
      case Eight =>
        Sub8(Xor(Lookup(Sub8(x, p[(j + 1) % 4])), Sub8(y, Lookup(x / 4))), p[j % 4])
      case A =>
        Add8(p[j % 4], Xor(Lookup(Sub8(x, p[(j + 1) % 4])), Add8(Mul8(2, Lookup(Xor(p[(j + 1) % 4], x) / 4)), y)))]
  }

  function Backward(rule: Rule, w: Window, j: nat, p: Pass): Window
    requires j < 8
  {
    var x, y := w[j], w[(j + 1) % 8];
    w[(j + 1) % 8 :=
      match rule
      case Eight =>
        Add8(Lookup(x / 4), Xor(Lookup(Sub8(x, p[(j + 1) % 4])), Add8(p[j % 4], y)))
      case A =>
        Sub8(Xor(Lookup(Sub8(x, p[(j + 1) % 4])), Sub8(y, p[j % 4])), Mul8(2, Lookup(Xor(p[(j + 1) % 4], x) / 4)))]
  }

  datatype Mixed = Mixed(window: Window, pass: Pass)

  /** n steps of an encrypting pass: rotate right, then mix at 7, 6, .., 0, 7, .. */
  function ForwardSteps(rule: Rule, w: Window, p: Pass, n: nat): Mixed {
    if n == 0 then Mixed(w, p)
    else
      var m := ForwardSteps(rule, w, p, n - 1);
      var q := RotateRight(m.pass);
      Mixed(Forward(rule, m.window, 7 - (n - 1) % 8, q), q)
  }

  /** n steps of a decrypting pass: unmix at 0, 1, .., 7, 0, .., then rotate left. */
  function BackwardSteps(rule: Rule, w: Window, p: Pass, n: nat): Mixed {
    if n == 0 then Mixed(w, p)
    else
      var m := BackwardSteps(rule, w, p, n - 1);
      Mixed(Backward(rule, m.window, (n - 1) % 8, m.pass), RotateLeft(m.pass))
  }

  lemma RotationsUndo(p: Pass)
    ensures RotateLeft(RotateRight(p)) == p && RotateRight(RotateLeft(p)) == p
  {
    hide ShiftLeft, ShiftRight;
    ShiftsUndo(p[0], p[1], p[3]);
    ShiftsUndo(p[1], p[2], p[0]);
    ShiftsUndo(p[2], p[3], p[1]);
    ShiftsUndo(p[3], p[0], p[2]);
  }

  lemma ModularUndo(x: byte, y: byte)
    ensures Add8(x, Sub8(y, x)) == y
    ensures Sub8(Add8(x, y), x) == y
    ensures Sub8(Add8(y, x), x) == y
  {
    SubThenAdd(x, y);
    AddThenSub(x, y);
  }

  lemma SubThenAdd(x: byte, y: byte)
    ensures Add8(x, Sub8(y, x)) == y
  {
    assert Sub8(y, x) == if y < x then y - x + 256 else y - x;
  }

  lemma AddThenSub(x: byte, y: byte)
    ensures Sub8(Add8(x, y), x) == y && Add8(x, y) == Add8(y, x)
  {
    assert Add8(x, y) == if x + y < 256 then x + y else x + y - 256;
  }

  lemma BackwardUndoesForward(rule: Rule, w: Window, j: nat, p: Pass)
    requires j < 8
    ensures Backward(rule, Forward(rule, w, j, p), j, p) == w
    ensures Forward(rule, Backward(rule, w, j, p), j, p) == w
  {
    hide Xor, Lookup, Add8, Sub8, Mul8;
    var x, y, m := w[j], w[(j + 1) % 8], (j + 1) % 8;
    var a, k := Lookup(Sub8(x, p[(j + 1) % 4])), p[j % 4];
    match rule
    case Eight =>
      var b := Lookup(x / 4);
      CancelEight(y, a, b, k);
      assert Backward(rule, Forward(rule, w, j, p), j, p)[m] == y;
      assert Forward(rule, Backward(rule, w, j, p), j, p)[m] == y;
    case A =>
      var b := Mul8(2, Lookup(Xor(p[(j + 1) % 4], x) / 4));
      CancelA(y, a, b, k);
      assert Backward(rule, Forward(rule, w, j, p), j, p)[m] == y;
      assert Forward(rule, Backward(rule, w, j, p), j, p)[m] == y;
  }

  lemma CancelEight(y: byte, a: byte, b: byte, k: byte)
    ensures Add8(b, Xor(a, Add8(k, Sub8(Xor(a, Sub8(y, b)), k)))) == y
    ensures Sub8(Xor(a, Sub8(Add8(b, Xor(a, Add8(k, y))), b)), k) == y
  {
    hide Xor, Add8, Sub8;
    var s, t := Sub8(y, b), Add8(k, y);
    ModularUndo(k, Xor(a, s));
    XorTwice(a, s);
    ModularUndo(b, y);
    ModularUndo(b, Xor(a, t));
    XorTwice(a, t);
    ModularUndo(k, y);
  }

  lemma CancelA(y: byte, a: byte, b: byte, k: byte)
    ensures Sub8(Xor(a, Sub8(Add8(k, Xor(a, Add8(b, y))), k)), b) == y
    ensures Add8(k, Xor(a, Add8(b, Sub8(Xor(a, Sub8(y, k)), b)))) == y
  {
    hide Xor, Add8, Sub8;
    var s, t := Add8(b, y), Sub8(y, k);
    ModularUndo(k, Xor(a, s));
    XorTwice(a, s);
    ModularUndo(b, y);
    ModularUndo(b, Xor(a, t));
    XorTwice(a, t);
    ModularUndo(k, y);
  }

  lemma XorTwice(a: byte, b: byte)
    ensures Xor(a, Xor(a, b)) == b
  {
    hide Xor;
    XorLaws(a, b, 0);
    XorCancels(b, a);
  }

  /** Where an encrypting pass was before its last n steps, a decrypting one is after n. */
  lemma Mirrored(n: nat)
    requires 0 < n <= 32
    ensures 7 - (32 - n) % 8 == (n - 1) % 8
  {
  }

  lemma {:induction false} ForwardUndone(rule: Rule, w: Window, p: Pass, n: nat)
    requires n <= 32
    ensures var m := ForwardSteps(rule, w, p, 32);
            BackwardSteps(rule, m.window, m.pass, n) == ForwardSteps(rule, w, p, 32 - n)
  {
    hide Forward, Backward, RotateLeft, RotateRight;
    if n == 0 {
    } else {
      ForwardUndone(rule, w, p, n - 1);
      var k := 32 - n;
      var f := ForwardSteps(rule, w, p, k);
      Mirrored(n);
      RotationsUndo(f.pass);
      BackwardUndoesForward(rule, f.window, 7 - k % 8, RotateRight(f.pass));
    }
  }

  lemma {:induction false} BackwardUndone(rule: Rule, w: Window, p: Pass, n: nat)
    requires n <= 32
    ensures var m := BackwardSteps(rule, w, p, 32);
            ForwardSteps(rule, m.window, m.pass, n) == BackwardSteps(rule, w, p, 32 - n)
  {
    hide Forward, Backward, RotateLeft, RotateRight;
    if n == 0 {
    } else {
      BackwardUndone(rule, w, p, n - 1);
      var k := 32 - n;
      var b := BackwardSteps(rule, w, p, k);
      Mirrored(n);
      RotationsUndo(b.pass);
      BackwardUndoesForward(rule, b.window, k % 8, b.pass);
    }
  }

  /** A decrypting pass walks an encrypting one backwards, step by step, and the other way round. */
  lemma {:induction false} StepsUndo(rule: Rule, w: Window, p: Pass, n: nat)
    requires n <= 32
    ensures var m := ForwardSteps(rule, w, p, 32);
            BackwardSteps(rule, m.window, m.pass, n) == ForwardSteps(rule, w, p, 32 - n)
    ensures var m := BackwardSteps(rule, w, p, 32);
            ForwardSteps(rule, m.window, m.pass, n) == BackwardSteps(rule, w, p, 32 - n)
  {
    hide ForwardSteps, BackwardSteps;
    ForwardUndone(rule, w, p, n);
    BackwardUndone(rule, w, p, n);
  }

  // Thirty-two rotations are none

  lemma TurnedTwice(p: Pass)
    ensures Turned(Turned(p, 1), 1) == Turned(p, 2)
    ensures Turned(Turned(p, 2), 2) == Turned(p, 4)
    ensures Turned(Turned(p, 4), 4) == [p[3], p[0], p[1], p[2]]
  {
    hide ShiftRight;
    ShiftRightTwice(p[0], p[3], p[2]);
    ShiftRightTwice(p[1], p[0], p[3]);
    ShiftRightTwice(p[2], p[1], p[0]);
    ShiftRightTwice(p[3], p[2], p[1]);
  }

  function Rotations(p: Pass, n: nat): Pass {
    if n == 0 then p else RotateRight(Rotations(p, n - 1))
  }

  lemma {:induction false} RotationsAdd(p: Pass, m: nat, n: nat)
    ensures Rotations(Rotations(p, m), n) == Rotations(p, m + n)
  {
    hide RotateRight;
    if n == 0 {
    } else {
      RotationsAdd(p, m, n - 1);
    }
  }

  lemma {:induction false} TwoRotations(p: Pass)
    ensures Rotations(p, 2) == Turned(p, 2)
  {
    hide Turned;
    TurnedTwice(p);
    assert Rotations(p, 1) == RotateRight(Rotations(p, 0));
  }

  lemma {:induction false} EightRotations(p: Pass)
    ensures Rotations(p, 8) == [p[3], p[0], p[1], p[2]]
  {
    hide Turned, Rotations;
    TwoRotations(p);
    TwoRotations(Turned(p, 2));
    TwoRotations(Turned(p, 4));
    TwoRotations(Turned(Turned(p, 4), 2));
    RotationsAdd(p, 2, 2);
    RotationsAdd(p, 4, 2);
    RotationsAdd(p, 6, 2);
    TurnedTwice(p);
    TurnedTwice(Turned(p, 4));
  }

  lemma {:induction false} FullTurn(p: Pass)
    ensures Rotations(p, 32) == p
  {
    hide Rotations;
    EightRotations(p);
    EightRotations([p[3], p[0], p[1], p[2]]);
    EightRotations([p[2], p[3], p[0], p[1]]);
    EightRotations([p[1], p[2], p[3], p[0]]);
    RotationsAdd(p, 8, 8);
    RotationsAdd(p, 16, 8);
    RotationsAdd(p, 24, 8);
  }

  lemma {:induction false} ForwardPass(rule: Rule, w: Window, p: Pass, n: nat)
    ensures ForwardSteps(rule, w, p, n).pass == Rotations(p, n)
  {
    hide Forward, RotateRight;
    if n == 0 {
    } else {
      ForwardPass(rule, w, p, n - 1);
    }
  }

  /** Every pass over a window returns the key bytes unchanged. */
  lemma {:induction false} KeyReturns(rule: Rule, w: Window, p: Pass)
    ensures ForwardSteps(rule, w, p, 32).pass == p
    ensures BackwardSteps(rule, w, p, 32).pass == p
  {
    hide ForwardSteps, BackwardSteps, Rotations;
    ForwardPass(rule, w, p, 32);
    FullTurn(p);
    var m := BackwardSteps(rule, w, p, 32);
    StepsUndo(rule, w, p, 32);
    assert ForwardSteps(rule, m.window, m.pass, 32) == Mixed(w, p) by { NoSteps(rule, w, p); }
    ForwardPass(rule, m.window, m.pass, 32);
    FullTurn(m.pass);
  }

  lemma {:induction false} NoSteps(rule: Rule, w: Window, p: Pass)
    ensures ForwardSteps(rule, w, p, 0) == BackwardSteps(rule, w, p, 0) == Mixed(w, p)
  {
  }

  // Whole passes on a window, and windows of a buffer

  function Mix(rule: Rule, w: Window, p: Pass): Window {
    ForwardSteps(rule, w, p, 32).window
  }

  function Unmix(rule: Rule, w: Window, p: Pass): Window {
    BackwardSteps(rule, w, p, 32).window
  }

  lemma MixUndo(rule: Rule, w: Window, p: Pass)
    ensures Unmix(rule, Mix(rule, w, p), p) == w && Mix(rule, Unmix(rule, w, p), p) == w
  {
    hide ForwardSteps, BackwardSteps;
    KeyReturns(rule, w, p);
    StepsUndo(rule, w, p, 32);
    NoSteps(rule, w, p);
  }

  function MixAt(rule: Rule, b: bytes, off: nat, p: Pass): (r: bytes)
    requires off + 8 <= |b|
    ensures |r| == |b|
  {
    b[..off] + Mix(rule, b[off..off + 8], p) + b[off + 8..]
  }

  function UnmixAt(rule: Rule, b: bytes, off: nat, p: Pass): (r: bytes)
    requires off + 8 <= |b|
    ensures |r| == |b|
  {
    b[..off] + Unmix(rule, b[off..off + 8], p) + b[off + 8..]
  }

  lemma MixAtUndo(rule: Rule, b: bytes, off: nat, p: Pass)
    requires off + 8 <= |b|
    ensures UnmixAt(rule, MixAt(rule, b, off, p), off, p) == b
    ensures MixAt(rule, UnmixAt(rule, b, off, p), off, p) == b
  {
    hide Mix, Unmix;
    MixUndo(rule, b[off..off + 8], p);
    assert MixAt(rule, b, off, p)[off..off + 8] == Mix(rule, b[off..off + 8], p);
    assert UnmixAt(rule, b, off, p)[off..off + 8] == Unmix(rule, b[off..off + 8], p);
  }

  // The XOR chain

  /** Every byte but the last is replaced by its difference to its successor. */
  function Chain(b: bytes): (r: bytes)
    requires b != []
    ensures |r| == |b|
  {
    seq(|b|, i requires 0 <= i < |b| => if i + 1 < |b| then Xor(b[i + 1], b[i]) else b[i])
  }

  /** The chain undone from position k to the end, the rest as it was. */
  function UnchainFrom(b: bytes, k: nat): (r: bytes)
    requires k < |b|
    ensures |r| == |b|
    decreases |b| - k
  {
    if k == |b| - 1 then b
    else
      var r := UnchainFrom(b, k + 1);
      r[k := Xor(r[k + 1], r[k])]
  }

  lemma {:induction false} UnchainUndoesChain(b: bytes, k: nat)
    requires k < |b|
    ensures var r := UnchainFrom(Chain(b), k);
            r[k..] == b[k..] && r[..k] == Chain(b)[..k]
    decreases |b| - k
  {
    hide Xor;
    if k < |b| - 1 {
      UnchainUndoesChain(b, k + 1);
      var r := UnchainFrom(Chain(b), k + 1);
      assert r[k] == Chain(b)[..k + 1][k] == Xor(b[k + 1], b[k]);
      assert r[k + 1] == b[k + 1..][0];
      XorTwice(b[k + 1], b[k]);
      assert UnchainFrom(Chain(b), k)[k + 1..] == r[k + 1..];
    }
  }

  lemma {:induction false} ChainUndoesUnchain(b: bytes, k: nat)
    requires k < |b|
    ensures var r := UnchainFrom(b, k);
            r[..k] == b[..k] && forall i :: k <= i < |b| ==> Chain(r)[i] == b[i]
    decreases |b| - k
  {
    hide Xor;
    if k < |b| - 1 {
      ChainUndoesUnchain(b, k + 1);
      var r := UnchainFrom(b, k + 1);
      assert r[k] == b[..k + 1][k];
      XorTwice(r[k + 1], b[k]);
      var t := UnchainFrom(b, k);
      forall i | k <= i < |b|
        ensures Chain(t)[i] == b[i]
      {
        assert i > k ==> Chain(t)[i] == Chain(r)[i];
      }
    }
  }

  lemma {:induction false} ChainUndo(b: bytes)
    requires b != []
    ensures UnchainFrom(Chain(b), 0) == b && Chain(UnchainFrom(b, 0)) == b
  {
    UnchainUndoesChain(b, 0);
    ChainUndoesUnchain(b, 0);
  }

  // The cipher

  /** gbox_convert_pw */
  function PassOf(key: nat): Pass {
    BigEndian(4, key)
  }

  /** The number that four key bytes spell, most significant first. */
  function Number(p: Pass): (n: Word) {
    p[0] as int * 0x100_0000 + p[1] as int * 0x1_0000 + p[2] as int * 0x100 + p[3] as int
  }

  lemma PassDigits(key: nat)
    ensures PassOf(key) == [key / 0x100_0000 % 256, key / 0x1_0000 % 256, key / 0x100 % 256, key % 256]
  {
    var a, b, c := key / 0x100, key / 0x1_0000, key / 0x100_0000;
    assert b == a / 256 && c == b / 256;
    assert BigEndian(1, c) == BigEndian(0, c / 256) + [c % 256];
    assert BigEndian(2, b) == BigEndian(1, c) + [b % 256];
    assert BigEndian(3, a) == BigEndian(2, b) + [a % 256];
  }

  /** The key bytes spell the password. */
  lemma PassSpellsKey(key: nat)
    requires key < 0x1_0000_0000
    ensures Number(PassOf(key)) == key
  {
    PassDigits(key);
    var a, b, c := key / 0x100, key / 0x1_0000, key / 0x100_0000;
    assert b == a / 256 && c == b / 256 && c < 256;
    assert key == 256 * a + key % 256 && a == 256 * b + a % 256 && b == 256 * c + b % 256;
  }

  /** Turning the key bytes right turns the 32-bit number they spell: its lowest bit comes in at the top. */
  lemma RotationIsRotation(p: Pass)
    ensures Number(RotateRight(p)) == Number(p) / 2 + (Number(p) % 2) * 0x8000_0000
  {
    var a, b, c, d: int := p[0], p[1], p[2], p[3];
    var n: int := Number(p);
    assert a == 2 * (a / 2) + a % 2 && b == 2 * (b / 2) + b % 2;
    assert c == 2 * (c / 2) + c % 2 && d == 2 * (d / 2) + d % 2;
    assert n == 2 * (a * 0x80_0000 + b * 0x8000 + c * 0x80 + d / 2) + d % 2;
    assert n / 2 == a * 0x80_0000 + b * 0x8000 + c * 0x80 + d / 2 && n % 2 == d % 2;
  }

  /** gbox_encrypt: the first window by rule A, the chain, the first window by rule Eight,
      and the window that ends one byte before the buffer's end, unmixed by rule Eight. */
  function Encrypted(b: bytes, key: nat): (r: bytes)
    requires |b| >= 9
    ensures |r| == |b|
  {
    var p := PassOf(key);
    UnmixAt(Eight, MixAt(Eight, Chain(MixAt(A, b, 0, p)), 0, p), |b| - 9, p)
  }

  function Decrypted(b: bytes, key: nat): (r: bytes)
    requires |b| >= 9
    ensures |r| == |b|
  {
    var p := PassOf(key);
    UnmixAt(A, UnchainFrom(UnmixAt(Eight, MixAt(Eight, b, |b| - 9, p), 0, p), 0), 0, p)
  }

  /** For every buffer of at least nine bytes and every key, each direction undoes the
      other, also when the two windows overlap. */
  lemma CipherUndo(b: bytes, key: nat)
    requires |b| >= 9
    ensures Decrypted(Encrypted(b, key), key) == b
    ensures Encrypted(Decrypted(b, key), key) == b
  {
    hide MixAt, UnmixAt, Chain, UnchainFrom, PassOf;
    var p, n := PassOf(key), |b| - 9;
    var e1 := MixAt(A, b, 0, p);
    var e2 := Chain(e1);
    var e3 := MixAt(Eight, e2, 0, p);
    MixAtUndo(Eight, e3, n, p);
    MixAtUndo(Eight, e2, 0, p);
    ChainUndo(e1);
    MixAtUndo(A, b, 0, p);
    var d1 := MixAt(Eight, b, n, p);
    var d2 := UnmixAt(Eight, d1, 0, p);
    var d3 := UnchainFrom(d2, 0);
    MixAtUndo(A, d3, 0, p);
    ChainUndo(d2);
    MixAtUndo(Eight, d1, 0, p);
    MixAtUndo(Eight, b, n, p);
  }

  // What a step does to the window

  /** Whoever knows a byte before and after a step, its left neighbour and the two key bytes can read
      off the table entry the step has looked up. */
  lemma StepShowsEntry(rule: Rule, w: Window, j: nat, p: Pass)
    requires j < 8
    ensures var x, y, z := w[j], w[(j + 1) % 8], Forward(rule, w, j, p)[(j + 1) % 8]; var k, q := p[(j + 1) % 4], p[j % 4];
            Lookup(Sub8(x, k)) == match rule
                                  case Eight => Xor(Add8(q, z), Sub8(y, Lookup(x / 4)))
                                  case A => Xor(Sub8(z, q), Add8(Mul8(2, Lookup(Xor(k, x) / 4)), y))
  {
    hide Xor, Lookup, Add8, Sub8, Mul8;
    var x, y, k, q := w[j], w[(j + 1) % 8], p[(j + 1) % 4], p[j % 4];
    var a := Lookup(Sub8(x, k));
    match rule
    case Eight =>
      var s := Sub8(y, Lookup(x / 4));
      ModularUndo(q, Xor(a, s));
      XorCancels(a, s);
    case A =>
      var s := Add8(Mul8(2, Lookup(Xor(k, x) / 4)), y);
      ModularUndo(q, Xor(a, s));
      XorCancels(a, s);
  }

  /** The table is looked up with the lowest six bits. */
  lemma LookupIs(x: byte, k: nat)
    requires k < 64 && x % 64 == k
    ensures |LOOKUP_TABLE| == 64 && Lookup(x) == LOOKUP_TABLE[k]
  {
  }

  lemma OthersStay(rule: Rule, w: Window, j: nat, p: Pass, i: nat)
    requires j < 8 && i < 8 && i != (j + 1) % 8
    ensures Forward(rule, w, j, p)[i] == w[i]
  {
    hide Xor, Lookup, Add8, Sub8, Mul8;
  }

  /** Step n of an encrypting pass, counted from 1, changes byte 0, 7, 6, .., 1, 0, .. and no other. */
  lemma {:induction false} PassTouches(rule: Rule, w: Window, p: Pass, n: nat, i: nat)
    requires 0 < n && i < 8 && i != (9 - n) % 8
    ensures ForwardSteps(rule, w, p, n).window[i] == ForwardSteps(rule, w, p, n - 1).window[i]
  {
    hide Forward, RotateRight;
    var j := 7 - (n - 1) % 8;
    assert (j + 1) % 8 == (9 - n) % 8 by {
      assert n - 1 == 8 * ((n - 1) / 8) + (n - 1) % 8;
      assert 9 - n == 8 * (0 - (n - 1) / 8) + (j + 1);
    }
    var m := ForwardSteps(rule, w, p, n - 1);
    OthersStay(rule, m.window, j, RotateRight(m.pass), i);
  }

  /** The last byte stays, and bytes between two windows that do not meet are only chained: the first
      window covers eight bytes, the second the eight before the last. */
  lemma BetweenWindows(b: bytes, key: nat, i: nat)
    requires |b| >= 9 && i < |b|
    ensures i == |b| - 1 ==> Encrypted(b, key)[i] == b[i]
    ensures 8 <= i < |b| - 9 ==> Encrypted(b, key)[i] == Xor(b[i + 1], b[i])
  {
    hide Mix, Unmix, Xor, PassOf;
  }

  /** Buffers whose windows do not meet are three parts: the first eight bytes, mixed, chained with the
      ninth and mixed again; chained bytes; and eight chained bytes that are unmixed. */
  lemma ApartFromEachOther(b: bytes, key: nat)
    requires |b| >= 17
    ensures var p, n := PassOf(key), |b| - 9; var first := Mix(A, b[..8], p);
            && Encrypted(b, key)[..8] == Mix(Eight, Chain(first + [b[8]])[..8], p)
            && Encrypted(b, key)[n..n + 8] == Unmix(Eight, Chain(b)[n..n + 8], p)
  {
    hide Mix, Unmix, Xor, PassOf;
    var p, n := PassOf(key), |b| - 9;
    var a := MixAt(A, b, 0, p);
    assert b[0..8] == b[..8] && a[..8] == Mix(A, b[..8], p) && a[8..] == b[8..];
    var c := Chain(a);
    assert c[0..8] == Chain(a[..8] + [b[8]])[..8];
    var d := MixAt(Eight, c, 0, p);
    assert d[n..n + 8] == c[n..n + 8];
    assert forall i :: n <= i < |b| ==> a[i] == a[8..][i - 8] == b[8..][i - 8] == b[i];
    assert c[n..n + 8] == Chain(b)[n..n + 8];
  }
}
