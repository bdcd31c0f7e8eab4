/** The CCcam stream cipher: an RC4-like keystream whose output is also masked by a
    `state` byte that accumulates every plaintext byte (oscam/module-cccam.c:66-109). */
module CcCrypt {
  import opened Bytes

  /** DECRYPT is 0 and ENCRYPT is 1 in the C code; only the direction of the feedback differs. */
  datatype Mode = Decrypt | Encrypt

  type KeyTable = k: bytes | |k| == 256 witness seq(256, _ => 0)

  /** The part of a block that only counts bytes: it never sees the data. */
  datatype Keystream = Keystream(table: KeyTable, counter: byte, sum: byte)

  datatype Block = Block(keys: Keystream, state: byte)

  function Swap(k: KeyTable, i: byte, j: byte): KeyTable
  {
    k[i := k[j]][j := k[i]]
  }

  function Turn(g: Keystream): Keystream {
    var counter := Add8(g.counter, 1);
    var sum := Add8(g.sum, g.table[counter]);
    Keystream(Swap(g.table, counter, sum), counter, sum)
  }

  /** The keystream byte shown after a turn. */
  function KeyByte(g: Keystream): byte {
    g.table[Add8(g.table[g.counter], g.table[g.sum])]
  }

  datatype Crypted = Crypted(block: Block, data: bytes)

  function CryptByte(b: Block, x: byte, mode: Mode): (Block, byte) {
    var t := Turn(b.keys);
    var y := Xor(Xor(x, KeyByte(t)), b.state);
    (Block(t, Xor(b.state, if mode == Encrypt then x else y)), y)
  }

  function Crypt(b: Block, xs: bytes, mode: Mode): (r: Crypted)
    ensures |r.data| == |xs|
  {
    if xs == [] then Crypted(b, [])
    else
      var front := Crypt(b, xs[..|xs| - 1], mode);
      var (next, y) := CryptByte(front.block, xs[|xs| - 1], mode);
      Crypted(next, front.data + [y])
  }

  /** A message may be crypted as one piece or as two. */
  lemma {:induction false} CryptConcat(b: Block, xs: bytes, ys: bytes, mode: Mode)
    ensures var first := Crypt(b, xs, mode); var second := Crypt(first.block, ys, mode);
            Crypt(b, xs + ys, mode) == Crypted(second.block, first.data + second.data)
  {
    hide CryptByte;
    if ys == [] {
      assert xs + ys == xs;
    } else {
      CryptConcat(b, xs, ys[..|ys| - 1], mode);
      var all := xs + ys;
      assert all[..|all| - 1] == xs + ys[..|ys| - 1];
      assert all[|all| - 1] == ys[|ys| - 1];
    }
  }

  /** The keystream position depends on the number of bytes crypted, not on their
      values, not on the mode, and not on `state`. */
  lemma {:induction false} KeystreamIgnoresData(a: Block, b: Block, xs: bytes, ys: bytes, m: Mode, n: Mode)
    requires a.keys == b.keys && |xs| == |ys|
    ensures Crypt(a, xs, m).block.keys == Crypt(b, ys, n).block.keys
  {
    hide Turn, KeyByte;
    if xs == [] {
    } else {
      KeystreamIgnoresData(a, b, xs[..|xs| - 1], ys[..|ys| - 1], m, n);
    }
  }

  /** A receiver that is in step but holds another `state` gets the first byte wrong by
      exactly the difference, and holds the sender's `state` from then on. */
  lemma FirstByteHeals(sender: Block, receiver: Block, x: byte)
    requires sender.keys == receiver.keys
    ensures var (s, y) := CryptByte(sender, x, Encrypt); var (r, z) := CryptByte(receiver, y, Decrypt);
            r == s && z == Xor(Xor(x, sender.state), receiver.state)
  {
    hide Turn, KeyByte, Xor;
    XorRemask(x, KeyByte(Turn(sender.keys)), sender.state, receiver.state);
  }

  /** Decryption undoes encryption for blocks that are equal, and leaves them equal. */
  lemma {:induction false} DecryptUndoesEncrypt(b: Block, xs: bytes)
    ensures var sent := Crypt(b, xs, Encrypt);
            Crypt(b, sent.data, Decrypt) == Crypted(sent.block, xs)
  {
    hide CryptByte;
    if xs == [] {
    } else {
      var front, x := xs[..|xs| - 1], xs[|xs| - 1];
      DecryptUndoesEncrypt(b, front);
      var s := Crypt(b, front, Encrypt);
      var sent := Crypt(b, xs, Encrypt);
      assert sent.data[..|xs| - 1] == s.data;
      FirstByteHeals(s.block, s.block, x);
      XorCancels(x, s.block.state);
      assert xs == front + [x];
    }
  }

  /** And encryption undoes decryption, so no two messages decrypt to the same bytes. */
  lemma {:induction false} EncryptUndoesDecrypt(b: Block, ys: bytes)
    ensures var read := Crypt(b, ys, Decrypt);
            Crypt(b, read.data, Encrypt) == Crypted(read.block, ys)
  {
    hide Turn, KeyByte, Xor;
    if ys == [] {
    } else {
      var front, y := ys[..|ys| - 1], ys[|ys| - 1];
      EncryptUndoesDecrypt(b, front);
      var r := Crypt(b, front, Decrypt);
      assert Crypt(b, ys, Decrypt).data[..|ys| - 1] == r.data;
      XorRemask(y, KeyByte(Turn(r.block.keys)), r.block.state, r.block.state);
      XorCancels(y, r.block.state);
      assert ys == front + [y];
    }
  }

  lemma {:induction false} CryptOne(b: Block, x: byte, mode: Mode)
    ensures var (next, y) := CryptByte(b, x, mode); Crypt(b, [x], mode) == Crypted(next, [y])
  {
    hide CryptByte;
    assert [x][..0] == [];
    assert Crypt(b, [], mode) == Crypted(b, []);
  }

  /** For any two blocks that are in step, a nonempty message arrives complete except
      for its first byte, which is off by the difference of the `state` bytes. */
  lemma {:induction false} DecryptHeals(sender: Block, receiver: Block, xs: bytes)
    requires sender.keys == receiver.keys && xs != []
    ensures var sent := Crypt(sender, xs, Encrypt);
            Crypt(receiver, sent.data, Decrypt)
            == Crypted(sent.block, [Xor(Xor(xs[0], sender.state), receiver.state)] + xs[1..])
  {
    hide CryptByte, Crypt;
    var x := xs[0];
    assert xs == [x] + xs[1..];
    CryptConcat(sender, [x], xs[1..], Encrypt);
    CryptOne(sender, x, Encrypt);
    var first := Crypt(sender, [x], Encrypt);
    CryptConcat(receiver, first.data, Crypt(first.block, xs[1..], Encrypt).data, Decrypt);
    CryptOne(receiver, first.data[0], Decrypt);
    FirstByteHeals(sender, receiver, x);
    DecryptUndoesEncrypt(first.block, xs[1..]);
  }

  /** Encrypting folds every plaintext byte into `state`. */
  lemma {:induction false} EncryptState(b: Block, xs: bytes)
    ensures Crypt(b, xs, Encrypt).block.state == Xor(b.state, XorAll(xs))
  {
    hide Turn, KeyByte, Xor;
    if xs == [] {
      XorLaws(b.state, 0, 0);
    } else {
      EncryptState(b, xs[..|xs| - 1]);
      XorLaws(b.state, XorAll(xs[..|xs| - 1]), xs[|xs| - 1]);
    }
  }

  // Key setup

  function Identity(): KeyTable {
    seq(256, i requires 0 <= i < 256 => i)
  }

  /** The first n rounds of the key schedule: the table and the running index j. */
  function Schedule(key: bytes, n: nat): (r: (KeyTable, byte))
    requires key != [] && n <= 256
  {
    if n == 0 then (Identity(), 0)
    else
      var (table, j) := Schedule(key, n - 1);
      var j' := Add8(j, Add8(key[(n - 1) % |key|], table[n - 1]));
      (Swap(table, n - 1, j'), j')
  }

  function InitCrypt(key: bytes): Block
    requires key != []
  {
    Block(Keystream(Schedule(key, 256).0, 0, 0), key[0])
  }

  /** struct cc_crypt_block, updated in place. */
  class CryptBlock {
    const keytable: array<byte>
    var state: byte
    var counter: byte
    var sum: byte

    ghost predicate Valid()
      reads this
    {
      keytable.Length == 256
    }

    ghost function Keys(): Keystream
      requires Valid()
      reads this, keytable
    {
      Keystream(keytable[..], counter, sum)
    }

    ghost function View(): Block
      requires Valid()
      reads this, keytable
    {
      Block(Keys(), state)
    }

    constructor ()
      ensures Valid() && fresh(keytable)
      ensures View() == Block(Keystream(Zeros(256), 0, 0), 0)
    {
      keytable := new byte[256](_ => 0);
      state, counter, sum := 0, 0, 0;
    }

    /** SWAPC */
    method SwapEntries(i: byte, j: byte)
      requires Valid()
      modifies keytable
      ensures keytable[..] == Swap(old(keytable[..]), i, j)
    {
      keytable[i], keytable[j] := keytable[j], keytable[i];
    }

    /** A saved block copied back */
    method Restore(keys: KeyTable, counter: byte, sum: byte, state: byte)
      requires Valid()
      modifies this, keytable
      ensures Valid() && View() == Block(Keystream(keys, counter, sum), state)
    {
      for i := 0 to 256
        invariant forall k :: 0 <= k < i ==> keytable[k] == keys[k]
      {
        keytable[i] := keys[i];
      }
      assert keytable[..] == keys;
      this.counter, this.sum, this.state := counter, sum, state;
    }

    /** cc_init_crypt */
    method Init(key: bytes)
      requires Valid() && key != []
      modifies this, keytable
      ensures Valid() && View() == InitCrypt(key)
      ensures state == key[0] && counter == 0 && sum == 0
    {
      hide Swap;
      for i := 0 to 256
        invariant forall k :: 0 <= k < i ==> keytable[k] == Identity()[k]
      {
        keytable[i] := i;
      }
      assert keytable[..] == Identity();
      var j: byte := 0;
      for i := 0 to 256
        invariant (keytable[..], j) == Schedule(key, i)
      {
        j := Add8(j, Add8(key[i % |key|], keytable[i]));
        SwapEntries(i, j);
      }
      state, counter, sum := key[0], 0, 0;
    }

    /** One turn of the generator, as at the head of the loop in cc_crypt. */
    method Advance() returns (k: byte)
      requires Valid()
      modifies this, keytable
      ensures Valid() && Keys() == Turn(old(Keys())) && state == old(state)
      ensures k == KeyByte(Keys())
    {
      hide Swap;
      counter := Add8(counter, 1);
      sum := Add8(sum, keytable[counter]);
      SwapEntries(counter, sum);
      k := keytable[Add8(keytable[counter], keytable[sum])];
    }

    /** The body of the loop in cc_crypt. */
    method CryptNext(x: byte, mode: Mode) returns (y: byte)
      requires Valid()
      modifies this, keytable
      ensures Valid() && (View(), y) == CryptByte(old(View()), x, mode)
    {
      hide Turn, KeyByte, Xor;
      var k := Advance();
      y := Xor(Xor(x, k), state);
      state := Xor(state, if mode == Decrypt then y else x);
    }

    /** cc_crypt on data[lo..hi] */
    method CryptRange(data: array<byte>, lo: nat, hi: nat, mode: Mode)
      requires Valid() && data != keytable && lo <= hi <= data.Length
      modifies this, keytable, data
      ensures Valid() && View() == Crypt(old(View()), old(data[lo..hi]), mode).block
      ensures data[..] == old(data[..lo]) + Crypt(old(View()), old(data[lo..hi]), mode).data + old(data[hi..])
    {
      hide CryptByte, Crypt;
      ghost var b, xs, done: bytes := View(), data[..], [];
      assert Crypt(b, xs[lo..lo], mode) == Crypted(b, []) by { CryptNothing(b, mode); }
      for i := lo to hi
        invariant |done| == i - lo && forall k :: 0 <= k < i - lo ==> data[lo + k] == done[k]
        invariant forall k :: 0 <= k < lo || i <= k < data.Length ==> data[k] == xs[k]
        invariant Crypt(b, xs[lo..i], mode) == Crypted(View(), done)
      {
        CryptSnoc(b, xs, lo, i, mode);
        var y := CryptNext(data[i], mode);
        data[i] := y;
        done := done + [y];
      }
      assert data[..] == xs[..lo] + done + xs[hi..];
    }
  }

  lemma {:induction false} CryptNothing(b: Block, mode: Mode)
    ensures Crypt(b, [], mode) == Crypted(b, [])
  {
  }

  lemma {:induction false} CryptSnoc(b: Block, xs: bytes, lo: nat, i: nat, mode: Mode)
    requires lo <= i < |xs|
    ensures var front := Crypt(b, xs[lo..i], mode); var (next, y) := CryptByte(front.block, xs[i], mode);
            Crypt(b, xs[lo..i + 1], mode) == Crypted(next, front.data + [y])
  {
    assert xs[lo..i + 1][..i - lo] == xs[lo..i];
  }
}
