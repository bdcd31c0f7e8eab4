/** What the CCcam key schedule and keystream compute (oscam/module-cccam.c:66-109). */
module CcKeystream {
  import opened Bytes
  import opened CcCrypt

  // The table is a rearrangement of 0..255

  predicate Rearranged(t: KeyTable) {
    multiset(t) == multiset(Identity())
  }

  lemma SwapRearranges(t: KeyTable, i: byte, j: byte)
    ensures multiset(Swap(t, i, j)) == multiset(t)
  {
  }

  /** After every round of the key schedule the table holds each byte exactly once. */
  lemma {:induction false} ScheduleRearranges(key: bytes, n: nat)
    requires key != [] && n <= 256
    ensures Rearranged(Schedule(key, n).0)
  {
    hide Swap, Add8;
    if n == 0 {
    } else {
      ScheduleRearranges(key, n - 1);
      SwapRearranges(Schedule(key, n - 1).0, n - 1, Schedule(key, n).1);
    }
  }

  /** So it does however many bytes have been crypted. */
  lemma {:induction false} CryptRearranges(b: Block, xs: bytes, mode: Mode)
    ensures multiset(Crypt(b, xs, mode).block.keys.table) == multiset(b.keys.table)
  {
    hide Swap, Add8, Xor;
    if xs == [] {
    } else {
      CryptRearranges(b, xs[..|xs| - 1], mode);
      var g := Crypt(b, xs[..|xs| - 1], mode).block.keys;
      SwapRearranges(g.table, Add8(g.counter, 1), Add8(g.sum, g.table[Add8(g.counter, 1)]));
    }
  }

  lemma {:induction false} OnceEach(t: KeyTable, i: nat, j: nat)
    requires Rearranged(t) && i < 256 && j < 256 && t[i] == t[j]
    ensures i == j
  {
    if i != j {
      var x, lo, hi := t[i], if i < j then i else j, if i < j then j else i;
      assert t == t[..lo] + [t[lo]] + t[lo + 1..hi] + [t[hi]] + t[hi + 1..];
      assert multiset(t)[x] >= 2;
      OnceInIdentity(x);
    }
  }

  lemma OnceInIdentity(x: byte)
    ensures multiset(Identity())[x] == 1
  {
    var s := Identity();
    assert s == s[..x] + [s[x]] + s[x + 1..];
    assert x !in multiset(s[..x]) && x !in multiset(s[x + 1..]);
  }

  // The schedule and the key

  /** Round n gives the key byte it has used away: the entry that comes to place n stood at the new
      index before, and the key byte is what the index has grown by besides the old entry. */
  lemma RoundGivesKeyAway(key: bytes, n: nat)
    requires key != [] && n < 256
    ensures var (table, j) := Schedule(key, n); var (next, i) := Schedule(key, n + 1);
            && next[n] == table[i] && next[i] == table[n]
            && (forall m :: 0 <= m < 256 && m != n && m != i ==> next[m] == table[m])
            && key[n % |key|] == Sub8(Sub8(i, j), table[n])
  {
    var (table, j) := Schedule(key, n);
    TakenBack(j, key[n % |key|], table[n]);
  }

  lemma TakenBack(j: byte, k: byte, x: byte)
    ensures Sub8(Sub8(Add8(j, Add8(k, x)), j), x) == k
  {
    var s := Add8(k, x);
    assert Sub8(Add8(j, s), j) == s by { AddedAndTaken(s, j); }
    AddedAndTaken(k, x);
  }

  lemma AddedAndTaken(a: byte, b: byte)
    ensures Sub8(Add8(a, b), b) == a && Add8(a, b) == Add8(b, a)
  {
    assert Add8(a, b) == if a + b < 256 then a + b else a + b - 256;
  }

  lemma {:induction false} IndexFromTables(a: bytes, b: bytes, n: nat)
    requires a != [] && b != [] && n <= 256
    requires forall m :: 0 <= m <= n ==> Schedule(a, m).0 == Schedule(b, m).0
    ensures Schedule(a, n).1 == Schedule(b, n).1
  {
    hide Swap, Add8;
    if n == 0 {
    } else {
      RoundGivesKeyAway(a, n - 1);
      RoundGivesKeyAway(b, n - 1);
      var t, u := Schedule(a, n - 1).0, Schedule(b, n - 1).0;
      ScheduleRearranges(a, n - 1);
      assert t == u && Schedule(a, n).0 == Schedule(b, n).0;
      OnceEach(t, Schedule(a, n).1, Schedule(b, n).1);
    }
  }

  ghost predicate SameTables(a: bytes, b: bytes)
    requires a != [] && b != []
  {
    forall n :: 0 <= n <= 256 ==> Schedule(a, n).0 == Schedule(b, n).0
  }

  lemma {:induction false} KeyByteFromTables(a: bytes, b: bytes, n: nat)
    requires n < |a| == |b| <= 256 && SameTables(a, b)
    ensures a[n] == b[n]
  {
    hide Schedule, Sub8;
    IndexFromTables(a, b, n);
    IndexFromTables(a, b, n + 1);
    RoundGivesKeyAway(a, n);
    RoundGivesKeyAway(b, n);
    assert Schedule(a, n).0 == Schedule(b, n).0;
    SmallMod(n, |a|);
  }

  lemma SmallMod(n: nat, m: nat)
    requires n < m
    ensures n % m == n
  {
  }

  lemma {:induction false} AlwaysSameTables(a: bytes)
    requires a != []
    ensures SameTables(a, a)
  {
  }

  /** Two keys of one length lead to the same tables after every round exactly if they are the same. */
  lemma {:induction false} SameTablesExactlyWhen(a: bytes, b: bytes)
    requires 0 < |a| == |b| <= 256
    ensures SameTables(a, b) <==> a == b
  {
    hide Schedule, SameTables;
    if SameTables(a, b) {
      forall n | 0 <= n < |a|
        ensures a[n] == b[n]
      {
        KeyByteFromTables(a, b, n);
      }
    } else if a == b {
      AlwaysSameTables(a);
    }
  }

  // The generator

  /** The generator can be run backwards, so no two of its states lead to the same one. */
  function TurnBack(g: Keystream): Keystream {
    var table := Swap(g.table, g.counter, g.sum);
    Keystream(table, Sub8(g.counter, 1), Sub8(g.sum, table[g.counter]))
  }

  lemma SwapTwice(t: KeyTable, i: byte, j: byte)
    ensures Swap(Swap(t, i, j), i, j) == t
  {
  }

  lemma TurnsUndo(g: Keystream)
    ensures TurnBack(Turn(g)) == g && Turn(TurnBack(g)) == g
  {
    hide Swap, Add8, Sub8;
    var i := Add8(g.counter, 1);
    SwapTwice(g.table, i, Add8(g.sum, g.table[i]));
    AddedAndTaken(g.counter, 1);
    AddedAndTaken(g.sum, g.table[i]);
    var t := Swap(g.table, g.counter, g.sum);
    SwapTwice(g.table, g.counter, g.sum);
    TakenAndAdded(g.counter, 1);
    TakenAndAdded(g.sum, t[g.counter]);
  }

  lemma TakenAndAdded(a: byte, b: byte)
    ensures Add8(Sub8(a, b), b) == a
  {
    assert Sub8(a, b) == if a < b then a - b + 256 else a - b;
  }

  function TurnedBy(g: Keystream, n: nat): Keystream {
    if n == 0 then g else Turn(TurnedBy(g, n - 1))
  }

  /** The key byte does not tell the two indices apart, and tells any two values of one of them apart. */
  lemma KeyByteTellsIndices(t: KeyTable, c: byte, s: byte, other: byte)
    requires Rearranged(t)
    ensures KeyByte(Keystream(t, c, s)) == KeyByte(Keystream(t, s, c))
    ensures KeyByte(Keystream(t, c, s)) == KeyByte(Keystream(t, c, other)) <==> s == other
  {
    AddedAndTaken(t[c], t[s]);
    AddedAndTaken(t[s], t[c]);
    AddedAndTaken(t[other], t[c]);
    if KeyByte(Keystream(t, c, s)) == KeyByte(Keystream(t, c, other)) {
      OnceEach(t, Add8(t[c], t[s]), Add8(t[c], t[other]));
      OnceEach(t, s, other);
    }
  }

  /** From the untouched table the keystream starts with 2, 5, 7. */
  lemma {:induction false} FirstKeyBytes()
    ensures var g := Keystream(Identity(), 0, 0);
            && KeyByte(TurnedBy(g, 1)) == 2 && KeyByte(TurnedBy(g, 2)) == 5 && KeyByte(TurnedBy(g, 3)) == 7
  {
    var g := Keystream(Identity(), 0, 0);
    var one := TurnedBy(g, 1);
    assert one == Turn(TurnedBy(g, 0)) && one.table == Identity() && one.counter == 1 && one.sum == 1;
    var two := TurnedBy(g, 2);
    assert two == Turn(one) && two.counter == 2 && two.sum == 3;
    var three := TurnedBy(g, 3);
    assert three == Turn(two) && three.counter == 3 && three.sum == 5;
  }

  // The cipher

  /** Byte i of a message is masked by the keystream's byte, by the block's `state` and by every byte
      before it; the keystream is then as many turns on as there were bytes. */
  lemma {:induction false} EncryptedIs(b: Block, xs: bytes)
    ensures var r := Crypt(b, xs, Encrypt);
            && r.block == Block(TurnedBy(b.keys, |xs|), Xor(b.state, XorAll(xs)))
            && forall i :: 0 <= i < |xs| ==>
                 r.data[i] == Xor(Xor(xs[i], KeyByte(TurnedBy(b.keys, i + 1))), Xor(b.state, XorAll(xs[..i])))
  {
    hide Turn, KeyByte, Xor;
    EncryptState(b, xs);
    if xs == [] {
    } else {
      var n := |xs| - 1;
      var front := Crypt(b, xs[..n], Encrypt);
      EncryptedIs(b, xs[..n]);
      var r := Crypt(b, xs, Encrypt);
      forall i | 0 <= i < |xs|
        ensures r.data[i] == Xor(Xor(xs[i], KeyByte(TurnedBy(b.keys, i + 1))), Xor(b.state, XorAll(xs[..i])))
      {
        if i < n {
          assert r.data[i] == front.data[i] && xs[..n][..i] == xs[..i];
        }
      }
    }
  }
}
