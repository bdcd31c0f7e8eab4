/** The gbox cipher as the C code runs it: nested loops that overwrite the buffer and
    rotate the key bytes in place (oscam/module-gbox-helper.c:64-224). */
module GboxBuffer {
  import opened Bytes
  import opened GboxCipher

  /** Everything outside the 8 bytes at off is as it was. */
  ghost predicate OnlyWindow(now: bytes, was: bytes, off: nat) {
    |now| == |was| && forall k :: 0 <= k < |was| && !(off <= k < off + 8) ==> now[k] == was[k]
  }

  method RotateKeyRight(pass: array<byte>)
    requires pass.Length == 4
    modifies pass
    ensures pass[..] == RotateRight(old(pass[..]))
  {
    hide ShiftRight;
    var temp := pass[3];
    pass[3] := ShiftRight(pass[3], pass[2], 1);
    pass[2] := ShiftRight(pass[2], pass[1], 1);
    pass[1] := ShiftRight(pass[1], pass[0], 1);
    pass[0] := ShiftRight(pass[0], temp, 1);
  }

  method RotateKeyLeft(pass: array<byte>)
    requires pass.Length == 4
    modifies pass
    ensures pass[..] == RotateLeft(old(pass[..]))
  {
    hide ShiftLeft;
    var temp := pass[0];
    pass[0] := ShiftLeft(pass[0], pass[1], 1);
    pass[1] := ShiftLeft(pass[1], pass[2], 1);
    pass[2] := ShiftLeft(pass[2], pass[3], 1);
    pass[3] := ShiftLeft(pass[3], temp, 1);
  }

  /** The three assignments of an encrypting step. */
  method ForwardStep(rule: Rule, buffer: array<byte>, off: nat, j: nat, pass: array<byte>)
    requires off + 8 <= buffer.Length && pass.Length == 4 && buffer != pass && j < 8
    modifies buffer
    ensures buffer[off..off + 8] == Forward(rule, old(buffer[off..off + 8]), j, pass[..])
    ensures OnlyWindow(buffer[..], old(buffer[..]), off)
  {
    hide Xor, Add8, Sub8, Mul8, Lookup;
    var x, m := buffer[off + j], off + (j + 1) % 8;
    match rule
    case Eight =>
      buffer[m] := Sub8(buffer[m], Lookup(x / 4));
      buffer[m] := Xor(Lookup(Sub8(x, pass[(j + 1) % 4])), buffer[m]);
      buffer[m] := Sub8(buffer[m], pass[j % 4]);
    case A =>
      buffer[m] := Add8(Mul8(2, Lookup(Xor(pass[(j + 1) % 4], x) / 4)), buffer[m]);
      buffer[m] := Xor(Lookup(Sub8(x, pass[(j + 1) % 4])), buffer[m]);
      buffer[m] := Add8(pass[j % 4], buffer[m]);
  }

  /** The three assignments of a decrypting step. */
  method BackwardStep(rule: Rule, buffer: array<byte>, off: nat, j: nat, pass: array<byte>)
    requires off + 8 <= buffer.Length && pass.Length == 4 && buffer != pass && j < 8
    modifies buffer
    ensures buffer[off..off + 8] == Backward(rule, old(buffer[off..off + 8]), j, pass[..])
    ensures OnlyWindow(buffer[..], old(buffer[..]), off)
  {
    hide Xor, Add8, Sub8, Mul8, Lookup;
    var x, m := buffer[off + j], off + (j + 1) % 8;
    match rule
    case Eight =>
      buffer[m] := Add8(pass[j % 4], buffer[m]);
      buffer[m] := Xor(Lookup(Sub8(x, pass[(j + 1) % 4])), buffer[m]);
      buffer[m] := Add8(Lookup(x / 4), buffer[m]);
    case A =>
      buffer[m] := Sub8(buffer[m], pass[j % 4]);
      buffer[m] := Xor(Lookup(Sub8(x, pass[(j + 1) % 4])), buffer[m]);
      buffer[m] := Sub8(buffer[m], Mul8(2, Lookup(Xor(pass[(j + 1) % 4], x) / 4)));
  }

  /** gbox_encrypt8 (four rounds of eight steps) and gbox_encryptA (32 steps in one loop) */
  method MixInPlace(rule: Rule, buffer: array<byte>, off: nat, pass: array<byte>)
    requires off + 8 <= buffer.Length && pass.Length == 4 && buffer != pass
    modifies buffer, pass
    ensures buffer[..] == MixAt(rule, old(buffer[..]), off, old(pass[..]))
    ensures pass[..] == old(pass[..])
  {
    hide Forward, Turned, Mix, ForwardSteps;
    ghost var was, w, p := buffer[..], buffer[off..off + 8], pass[..];
    NoSteps(rule, w, p);
    for passcounter := 0 to 4
      invariant OnlyWindow(buffer[..], was, off)
      invariant Mixed(buffer[off..off + 8], pass[..]) == ForwardSteps(rule, w, p, 8 * passcounter)
    {
      for bufcounter := 8 downto 0
        invariant OnlyWindow(buffer[..], was, off)
        invariant Mixed(buffer[off..off + 8], pass[..]) == ForwardSteps(rule, w, p, 8 * passcounter + 8 - bufcounter)
      {
        NextForward(rule, w, p, 8 * passcounter + 7 - bufcounter);
        RotateKeyRight(pass);
        ForwardStep(rule, buffer, off, bufcounter, pass);
      }
    }
    KeyReturns(rule, w, p);
    MixIsSteps(rule, w, p);
    WindowReplaced(buffer[..], was, off, Mix(rule, w, p));
  }

  lemma NextForward(rule: Rule, w: Window, p: Pass, n: nat)
    ensures var m := ForwardSteps(rule, w, p, n); var q := RotateRight(m.pass);
            ForwardSteps(rule, w, p, n + 1) == Mixed(Forward(rule, m.window, 7 - n % 8, q), q)
  {
  }

  lemma NextBackward(rule: Rule, w: Window, p: Pass, n: nat)
    ensures var m := BackwardSteps(rule, w, p, n);
            BackwardSteps(rule, w, p, n + 1) == Mixed(Backward(rule, m.window, n % 8, m.pass), RotateLeft(m.pass))
  {
  }

  lemma {:induction false} MixIsSteps(rule: Rule, w: Window, p: Pass)
    ensures Mix(rule, w, p) == ForwardSteps(rule, w, p, 32).window
    ensures Unmix(rule, w, p) == BackwardSteps(rule, w, p, 32).window
  {
  }

  lemma WindowReplaced(now: bytes, was: bytes, off: nat, w: Window)
    requires off + 8 <= |was| && OnlyWindow(now, was, off) && now[off..off + 8] == w
    ensures now == was[..off] + w + was[off + 8..]
  {
    forall k | 0 <= k < |was|
      ensures now[k] == (was[..off] + w + was[off + 8..])[k]
    {
      if off <= k < off + 8 {
        assert now[k] == now[off..off + 8][k - off];
      }
    }
  }

  /** gbox_decrypt8 and gbox_decryptA */
  method UnmixInPlace(rule: Rule, buffer: array<byte>, off: nat, pass: array<byte>)
    requires off + 8 <= buffer.Length && pass.Length == 4 && buffer != pass
    modifies buffer, pass
    ensures buffer[..] == UnmixAt(rule, old(buffer[..]), off, old(pass[..]))
    ensures pass[..] == old(pass[..])
  {
    hide Backward, RotateLeft, Unmix, BackwardSteps;
    ghost var was, w, p := buffer[..], buffer[off..off + 8], pass[..];
    NoSteps(rule, w, p);
    for passcounter := 0 to 4
      invariant OnlyWindow(buffer[..], was, off)
      invariant Mixed(buffer[off..off + 8], pass[..]) == BackwardSteps(rule, w, p, 8 * passcounter)
    {
      for bufcounter := 0 to 8
        invariant OnlyWindow(buffer[..], was, off)
        invariant Mixed(buffer[off..off + 8], pass[..]) == BackwardSteps(rule, w, p, 8 * passcounter + bufcounter)
      {
        NextBackward(rule, w, p, 8 * passcounter + bufcounter);
        BackwardStep(rule, buffer, off, bufcounter, pass);
        RotateKeyLeft(pass);
      }
    }
    KeyReturns(rule, w, p);
    MixIsSteps(rule, w, p);
    WindowReplaced(buffer[..], was, off, Unmix(rule, w, p));
  }

  /** The first half of gbox_encryptB */
  method ChainInPlace(buffer: array<byte>)
    requires buffer.Length > 0
    modifies buffer
    ensures buffer[..] == Chain(old(buffer[..]))
  {
    hide Xor;
    ghost var was := buffer[..];
    for counter := 0 to buffer.Length - 1
      invariant forall k :: 0 <= k < counter ==> buffer[k] == Chain(was)[k]
      invariant forall k :: counter <= k < buffer.Length ==> buffer[k] == was[k]
    {
      buffer[counter] := Xor(buffer[counter + 1], buffer[counter]);
    }
  }

  /** The second half of gbox_decryptB */
  method UnchainInPlace(buffer: array<byte>)
    requires buffer.Length > 0
    modifies buffer
    ensures buffer[..] == UnchainFrom(old(buffer[..]), 0)
  {
    hide Xor;
    ghost var was := buffer[..];
    for counter := buffer.Length - 1 downto 0
      invariant buffer[..] == UnchainFrom(was, counter)
    {
      buffer[counter] := Xor(buffer[counter + 1], buffer[counter]);
    }
  }

  lemma Places()
    ensures Pow2(8 * 0) == 1 && Pow2(8 * 1) == 0x100 && Pow2(8 * 2) == 0x1_0000 && Pow2(8 * 3) == 0x100_0000
  {
    WordSizes();
    Pow2Byte(0);
  }

  /** gbox_convert_pw: the key bytes, most significant first */
  method ConvertPw(key: nat) returns (pass: array<byte>)
    requires key < 0x1_0000_0000
    ensures fresh(pass) && pass.Length == 4 && pass[..] == PassOf(key)
    ensures key == pass[0] * 0x100_0000 + pass[1] * 0x1_0000 + pass[2] * 0x100 + pass[3] as int
  {
    pass := new byte[4];
    for i := 4 downto 0
      invariant forall j :: i <= j < 4 ==> pass[3 - j] == (key / Pow2(8 * j)) % 256
    {
      pass[3 - i] := (key / Pow2(8 * i)) % 256;
    }
    Places();
    PassDigits(key);
    PassSpellsKey(key);
    assert pass[0] == (key / Pow2(24)) % 256 && pass[1] == (key / Pow2(16)) % 256;
    assert pass[2] == (key / Pow2(8)) % 256 && pass[3] == (key / Pow2(0)) % 256;
    assert pass[..] == PassOf(key);
  }

  /** gbox_encrypt */
  method Encrypt(buffer: array<byte>, key: nat)
    requires buffer.Length >= 9 && key < 0x1_0000_0000
    modifies buffer
    ensures buffer[..] == Encrypted(old(buffer[..]), key)
  {
    hide MixAt, UnmixAt, Chain, PassOf;
    var pass := ConvertPw(key);
    MixInPlace(A, buffer, 0, pass);
    ChainInPlace(buffer);
    MixInPlace(Eight, buffer, 0, pass);
    UnmixInPlace(Eight, buffer, buffer.Length - 9, pass);
  }

  /** gbox_decrypt */
  method Decrypt(buffer: array<byte>, key: nat)
    requires buffer.Length >= 9 && key < 0x1_0000_0000
    modifies buffer
    ensures buffer[..] == Decrypted(old(buffer[..]), key)
  {
    hide MixAt, UnmixAt, UnchainFrom, PassOf;
    var pass := ConvertPw(key);
    MixInPlace(Eight, buffer, buffer.Length - 9, pass);
    UnmixInPlace(Eight, buffer, 0, pass);
    UnchainInPlace(buffer);
    UnmixInPlace(A, buffer, 0, pass);
  }
}
