/** The CCcam login: both ends derive their cipher blocks from a random seed, and the
    client proves that it knows the password (oscam/module-cccam.c:125-139, 4324-4441,
    4511, 4766-4820). SHA-1 is a parameter. */
module CcHandshake {
  import opened Bytes
  import opened CcCrypt

  type Digest = d: bytes | |d| == 20 witness seq(20, _ => 0)

  type Seed = d: bytes | |d| == 16 witness seq(16, _ => 0)

  /** A C string: bytes without NUL. */
  type CString = s: bytes | 0 !in s

  const CCCAM: bytes := [0x43, 0x43, 0x63, 0x61, 0x6d, 0]

  /** cc_xor: the upper half becomes i times the lower half, then "CCcam" is folded into
      the first six bytes. */
  function CcXor(seed: Seed): Seed {
    seq(16, i requires 0 <= i < 16 =>
      if i < 6 then Xor(seed[i], CCCAM[i]) else if i < 8 then seed[i] else Mul8(i - 8, seed[i - 8]))
  }

  /** The lower half of the seed is shown through "CCcam", and the upper half is made from it. */
  lemma CcXorByte(s: Seed, i: nat)
    requires i < 8
    ensures i < 6 ==> Xor(CcXor(s)[i], CCCAM[i]) == s[i]
    ensures i >= 6 ==> CcXor(s)[i] == s[i]
    ensures CcXor(s)[8 + i] == Mul8(i, s[i])
  {
    hide Xor, Mul8;
    var j := 8 + i;
    assert CcXor(s)[j] == Mul8(j - 8, s[j - 8]);
    if i < 6 {
      XorCancels(s[i], CCCAM[i]);
    }
  }

  /** What the upper half of the seed was does not matter. */
  lemma SameSeedExactlyWhen(s: Seed, t: Seed)
    ensures CcXor(s) == CcXor(t) <==> s[..8] == t[..8]
  {
    hide Xor, Mul8;
    if CcXor(s) == CcXor(t) {
      forall i | 0 <= i < 8
        ensures s[i] == t[i]
      {
        CcXorByte(s, i);
        CcXorByte(t, i);
      }
    }
    if s[..8] == t[..8] {
      assert forall i :: 0 <= i < 8 ==> s[i] == s[..8][i] == t[..8][i] == t[i];
    }
  }

  datatype Keys = Keys(outer: Block, inner: Block, hash: Digest)

  /** The two blocks and the hash both ends compute. The server encrypts with the outer
      block and decrypts with the inner one; the client the other way round. */
  function DeriveKeys(seed: Seed, sha1: bytes -> Digest): Keys {
    var data := CcXor(seed);
    var hash := sha1(data);
    var outer := Crypt(InitCrypt(hash), data, Decrypt);
    var inner := Crypt(InitCrypt(outer.data), hash, Decrypt);
    Keys(outer.block, inner.block, inner.data)
  }

  /** Both ends can check their keys: the seed as exchanged is what the inner block's first key encrypts to
      under the outer block as set up from the hash, and the hash is what the login hash encrypts to
      under the inner one; each block has then moved on by what was crypted. */
  lemma KeysFitSeed(seed: Seed, sha1: bytes -> Digest) returns (start: bytes)
    ensures var k, hash := DeriveKeys(seed, sha1), sha1(CcXor(seed));
            && |start| == 16
            && Crypt(InitCrypt(hash), start, Encrypt) == Crypted(k.outer, CcXor(seed))
            && Crypt(InitCrypt(start), k.hash, Encrypt) == Crypted(k.inner, hash)
  {
    hide Crypt, InitCrypt, CcXor;
    var hash := sha1(CcXor(seed));
    start := Crypt(InitCrypt(hash), CcXor(seed), Decrypt).data;
    EncryptUndoesDecrypt(InitCrypt(hash), CcXor(seed));
    EncryptUndoesDecrypt(InitCrypt(start), hash);
  }

  function Min(a: int, b: int): int {
    if a < b then a else b
  }

  /** The first n bytes of a string, padded with NUL. */
  function Padded(s: bytes, n: nat): (r: bytes)
    ensures |r| == n
  {
    s[..Min(|s|, n)] + Zeros(n - Min(|s|, n))
  }

  /** A buffer read as a C string. */
  function Terminated(b: bytes): CString {
    if b == [] || b[0] == 0 then [] else [b[0]] + Terminated(b[1..])
  }

  /** What the client sends to log in: hash, user name, and "CCcam" crypted after the
      password went through the cipher. */
  function ClientLogin(k: Keys, usr: CString, pwd: CString): Crypted {
    var hash := Crypt(k.inner, k.hash, Encrypt);
    var name := Crypt(hash.block, Padded(usr, 20), Encrypt);
    var secret := Crypt(name.block, pwd, Encrypt);
    var proof := Crypt(secret.block, CCCAM, Encrypt);
    Crypted(proof.block, hash.data + name.data + proof.data)
  }

  lemma NotPrintable(usr: CString)
    ensures !Printable(usr) <==> exists b :: b in usr && b < 0x20
  {
    if !Printable(usr) {
      var i :| 0 <= i < |usr| && usr[i] < 0x20;
      assert usr[i] in usr;
    }
  }

  /** What the login says to whoever has the inner block: the hash, then the name in twenty bytes; the six
      bytes behind them say "CCcam" to whoever also has sent the password through the cipher. */
  lemma {:induction false} LoginSays(k: Keys, usr: CString, pwd: CString)
    ensures var login := ClientLogin(k, usr, pwd).data; var name := k.hash + Padded(usr, 20);
            && |login| == 46
            && Crypt(k.inner, login[..40], Decrypt).data == name
            && var saved := Crypt(k.inner, name, Encrypt).block;
               Crypt(Crypt(saved, pwd, Encrypt).block, login[40..], Decrypt).data == CCCAM
  {
    hide Crypt, Padded;
    var hash := Crypt(k.inner, k.hash, Encrypt);
    var name := Crypt(hash.block, Padded(usr, 20), Encrypt);
    var secret := Crypt(name.block, pwd, Encrypt);
    CryptConcat(k.inner, k.hash, Padded(usr, 20), Encrypt);
    DecryptUndoesEncrypt(k.inner, k.hash + Padded(usr, 20));
    DecryptUndoesEncrypt(secret.block, CCCAM);
    var login := ClientLogin(k, usr, pwd).data;
    assert login[..40] == hash.data + name.data && login[40..] == Crypt(secret.block, CCCAM, Encrypt).data;
  }

  datatype Account = Account(usr: CString, pwd: CString)

  /** Index of the first account whose name agrees in the first 20 bytes, or |accounts|. */
  function FindAccount(accounts: seq<Account>, usr: CString): (k: nat)
    ensures k <= |accounts|
    ensures k < |accounts| ==> SameName(accounts[k].usr, usr)
    ensures forall i :: 0 <= i < k ==> !SameName(accounts[i].usr, usr)
  {
    if accounts == [] || SameName(accounts[0].usr, usr) then 0
    else 1 + FindAccount(accounts[1..], usr)
  }

  predicate SameName(a: CString, b: CString) {
    a[..Min(|a|, 20)] == b[..Min(|b|, 20)]
  }

  /** Names count as the same exactly if a client sends the same for them. */
  lemma SameNameExactlyWhen(a: CString, b: CString)
    ensures SameName(a, b) <==> Padded(a, 20) == Padded(b, 20)
    ensures SameName(a, a[..Min(|a|, 20)])
  {
    hide Terminated;
    if Padded(a, 20) == Padded(b, 20) {
      PaddedReadsBack(a);
      PaddedReadsBack(b);
    }
  }

  predicate Printable(usr: CString) {
    forall i :: 0 <= i < |usr| ==> usr[i] >= 0x20
  }

  /** The password of account a goes through the cipher before the six bytes of the proof;
      the password buffer takes 64 bytes. */
  function Proved(saved: Block, a: Account, proof: bytes): (r: Crypted)
    ensures |r.data| == |proof|
  {
    Crypt(Crypt(saved, a.pwd[..Min(|a.pwd|, 64)], Encrypt).block, proof, Decrypt)
  }

  datatype Verdict =
    | Short                         // a read returned too little
    | IllegalName
    | NoAccount
    | WrongPassword                 // none of the accounts of that name has it
    | Welcome(k: nat, block: Block)

  /** Tries the accounts of that name from one on. Each attempt starts from the saved block,
      but decrypts in place what the attempt before has left. */
  function Try(saved: Block, proof: bytes, usr: CString, accounts: seq<Account>, from: nat): Verdict
    requires from <= |accounts|
    decreases |accounts| - from
  {
    if from == |accounts| then WrongPassword
    else if !SameName(accounts[from].usr, usr) then Try(saved, proof, usr, accounts, from + 1)
    else
      var r := Proved(saved, accounts[from], proof);
      if r.data == CCCAM then Welcome(from, r.block) else Try(saved, r.data, usr, accounts, from + 1)
  }

  /** How the server judges a login; block is its decrypting block afterwards. */
  function ServerLogin(k: Keys, wire: bytes, accounts: seq<Account>): Verdict {
    if |wire| < 46 then Short
    else
      var hash := Crypt(k.inner, wire[..20], Decrypt);
      var name := Crypt(hash.block, wire[20..40], Decrypt);
      var usr := Terminated(name.data);
      if !Printable(usr) then IllegalName
      else if FindAccount(accounts, usr) == |accounts| then NoAccount
      else Try(name.block, wire[40..46], usr, accounts, 0)
  }

  lemma {:induction false} TerminatedPrefix(s: CString, n: nat)
    ensures Terminated(s + Zeros(n)) == s
  {
    if s == [] {
      assert [] + Zeros(n) == Zeros(n);
    } else {
      assert (s + Zeros(n))[1..] == s[1..] + Zeros(n);
      assert s[0] != 0;
      TerminatedPrefix(s[1..], n);
    }
  }

  lemma PaddedReadsBack(usr: CString)
    ensures Terminated(Padded(usr, 20)) == usr[..Min(|usr|, 20)]
  {
    hide Terminated;
    TerminatedPrefix(usr[..Min(|usr|, 20)], 20 - Min(|usr|, 20));
  }

  lemma SplitLogin(wire: bytes, a: bytes, b: bytes, c: bytes)
    requires wire == a + b + c && |a| == 20 && |b| == 20 && |c| == 6
    ensures |wire| == 46 && wire[..20] == a && wire[20..40] == b && wire[40..46] == c
  {
  }

  /** Accounts of other names are passed over. */
  lemma {:induction false} TrySkips(saved: Block, proof: bytes, usr: CString, accounts: seq<Account>, from: nat)
    requires from <= FindAccount(accounts, usr)
    ensures Try(saved, proof, usr, accounts, from) == Try(saved, proof, usr, accounts, FindAccount(accounts, usr))
    decreases FindAccount(accounts, usr) - from
  {
    hide Crypt, SameName;
    if from == FindAccount(accounts, usr) {
    } else {
      TrySkips(saved, proof, usr, accounts, from + 1);
    }
  }

  // The client's login as the server reads it: the block saved before the passwords, and the proof

  function Saved(k: Keys, usr: CString): Block {
    Crypt(Crypt(k.inner, k.hash, Encrypt).block, Padded(usr, 20), Encrypt).block
  }

  function ProofSent(saved: Block, pwd: CString): Crypted {
    Crypt(Crypt(saved, pwd, Encrypt).block, CCCAM, Encrypt)
  }

  /** The server reads back the hash and the first 20 bytes of the user name, and tries the
      accounts of that name on what the client has proved its password with. */
  lemma {:induction false} LoginIsRead(k: Keys, usr: CString, pwd: CString, accounts: seq<Account>)
    ensures var login := ClientLogin(k, usr, pwd); var short := usr[..Min(|usr|, 20)];
            var sent := ProofSent(Saved(k, usr), pwd);
            && login.block == sent.block
            && ServerLogin(k, login.data, accounts)
               == if !Printable(short) then IllegalName
                  else if FindAccount(accounts, short) == |accounts| then NoAccount
                  else Try(Saved(k, usr), sent.data, short, accounts, 0)
  {
    hide Crypt, FindAccount, Printable, Padded, Terminated, Try;
    var hash := Crypt(k.inner, k.hash, Encrypt);
    var name := Crypt(hash.block, Padded(usr, 20), Encrypt);
    var sent := ProofSent(Saved(k, usr), pwd);
    SplitLogin(ClientLogin(k, usr, pwd).data, hash.data, name.data, sent.data);
    DecryptUndoesEncrypt(k.inner, k.hash);
    DecryptUndoesEncrypt(hash.block, Padded(usr, 20));
    PaddedReadsBack(usr);
  }

  /** An attempt with the client's password succeeds exactly on the bytes the client sent. */
  lemma ProvedExactlyWhen(saved: Block, a: Account, proof: bytes)
    requires |a.pwd| <= 64 && |proof| == 6
    ensures Proved(saved, a, proof).data == CCCAM <==> proof == ProofSent(saved, a.pwd).data
    ensures Proved(saved, a, ProofSent(saved, a.pwd).data) == Crypted(ProofSent(saved, a.pwd).block, CCCAM)
  {
    hide Crypt;
    assert a.pwd[..Min(|a.pwd|, 64)] == a.pwd;
    var secret := Crypt(saved, a.pwd, Encrypt).block;
    DecryptUndoesEncrypt(secret, CCCAM);
    EncryptUndoesDecrypt(secret, proof);
  }

  /** The server accepts the first account of the name, if it has the client's password, with
      its decrypting block equal to the client's encrypting one. Otherwise it gives the right
      reason, or accepts a later account of the name. */
  lemma {:induction false} LoginIsRecognised(k: Keys, usr: CString, pwd: CString, accounts: seq<Account>)
    requires |pwd| <= 64
    ensures var sent := ClientLogin(k, usr, pwd); var name := usr[..Min(|usr|, 20)];
            var i := FindAccount(accounts, name); var v := ServerLogin(k, sent.data, accounts);
            && (v.IllegalName? <==> exists b :: b in name && b < 0x20)
            && (v.NoAccount? <==> Printable(name) && i == |accounts|)
            && (Printable(name) && i < |accounts| && accounts[i].pwd == pwd ==> v == Welcome(i, sent.block))
            && (Printable(name) && i < |accounts| && accounts[i].pwd != pwd ==> v.Welcome? || v.WrongPassword?)
            && (v.Welcome? ==> i <= v.k < |accounts| && SameName(accounts[v.k].usr, name))
  {
    hide Crypt, FindAccount, Printable, SameName, Padded, ClientLogin, ServerLogin, Proved;
    LoginIsRead(k, usr, pwd, accounts);
    var name, saved := usr[..Min(|usr|, 20)], Saved(k, usr);
    var proof := ProofSent(saved, pwd).data;
    TrySkips(saved, proof, name, accounts, 0);
    var i := FindAccount(accounts, name);
    TryFinds(saved, proof, name, accounts, i);
    NotPrintable(name);
    if i < |accounts| && accounts[i].pwd == pwd {
      ProvedExactlyWhen(saved, accounts[i], proof);
    }
  }

  lemma {:induction false} TryFinds(saved: Block, proof: bytes, usr: CString, accounts: seq<Account>, from: nat)
    requires from <= |accounts|
    ensures var v := Try(saved, proof, usr, accounts, from);
            v == WrongPassword || (v.Welcome? && from <= v.k < |accounts| && SameName(accounts[v.k].usr, usr))
    decreases |accounts| - from
  {
    hide SameName, Proved;
    if from == |accounts| {
    } else {
      TryFinds(saved, Attempted(saved, proof, usr, accounts[from]), usr, accounts, from + 1);
    }
  }

  // Further accounts of the same name

  /** What an attempt leaves of the proof. */
  function Attempted(saved: Block, proof: bytes, usr: CString, a: Account): (r: bytes)
    ensures |r| == |proof|
  {
    if SameName(a.usr, usr) then Proved(saved, a, proof).data else proof
  }

  /** What the attempts with these accounts leave of it. */
  function Left(saved: Block, proof: bytes, usr: CString, accounts: seq<Account>): (r: bytes)
    ensures |r| == |proof|
    decreases |accounts|
  {
    if accounts == [] then proof
    else Left(saved, Attempted(saved, proof, usr, accounts[0]), usr, accounts[1..])
  }

  lemma {:induction false} TryReaches(saved: Block, proof: bytes, usr: CString, accounts: seq<Account>, from: nat, i: nat)
    requires from <= i < |accounts| && SameName(accounts[i].usr, usr)
    ensures var v, r := Try(saved, proof, usr, accounts, from), Proved(saved, accounts[i], Left(saved, proof, usr, accounts[from..i]));
            && (v.Welcome? && v.k == i ==> r.data == CCCAM && v.block == r.block)
            && (r.data == CCCAM && !(v.Welcome? && v.k < i) ==> v == Welcome(i, r.block))
    decreases i - from
  {
    hide SameName, Proved;
    var rest := accounts[from..i];
    if from == i {
      assert rest == [];
      TryFinds(saved, Proved(saved, accounts[i], proof).data, usr, accounts, i + 1);
    } else {
      assert rest[0] == accounts[from] && rest[1..] == accounts[from + 1..i];
      TryReaches(saved, Attempted(saved, proof, usr, accounts[from]), usr, accounts, from + 1, i);
    }
  }

  /** An account with the client's password, when its turn comes, is accepted exactly if the
      attempts before have left the proof as it was received. */
  lemma {:induction false} RetryExactlyWhen(k: Keys, usr: CString, pwd: CString, accounts: seq<Account>, i: nat)
    requires |pwd| <= 64 && Printable(usr[..Min(|usr|, 20)])
    requires i < |accounts| && SameName(accounts[i].usr, usr[..Min(|usr|, 20)]) && accounts[i].pwd == pwd
    ensures var sent := ClientLogin(k, usr, pwd); var v := ServerLogin(k, sent.data, accounts);
            var proof := ProofSent(Saved(k, usr), pwd).data;
            v == Welcome(i, sent.block)
            <==> !(v.Welcome? && v.k < i) && Left(Saved(k, usr), proof, usr[..Min(|usr|, 20)], accounts[..i]) == proof
  {
    hide Crypt, FindAccount, Printable, SameName, Padded, ClientLogin, ServerLogin, Proved, Left, Try;
    var name, saved := usr[..Min(|usr|, 20)], Saved(k, usr);
    var proof := ProofSent(saved, pwd).data;
    LoginIsRead(k, usr, pwd, accounts);
    assert FindAccount(accounts, name) <= i by { hide *; }
    TryReaches(saved, proof, name, accounts, 0, i);
    assert accounts[0..i] == accounts[..i];
    ProvedExactlyWhen(saved, accounts[i], Left(saved, proof, name, accounts[..i]));
  }

  /** Whatever passwords the accounts before it have, this one is accepted. */
  ghost predicate WelcomeWhatever(k: Keys, usr: CString, pwd: CString, accounts: seq<Account>, i: nat)
    requires i < |accounts|
  {
    forall before: seq<Account> :: NamedAs(before, accounts[..i]) ==>
      var sent := ClientLogin(k, usr, pwd);
      ServerLogin(k, sent.data, before + accounts[i..]) == Welcome(i, sent.block)
  }

  predicate NamedAs(a: seq<Account>, b: seq<Account>) {
    |a| == |b| && forall i :: 0 <= i < |a| ==> a[i].usr == b[i].usr
  }

  /** An account is sure to accept its password exactly if it is the first of its name. */
  lemma {:induction false} SafeExactlyWhenFirst(k: Keys, usr: CString, pwd: CString, accounts: seq<Account>, i: nat)
    requires |pwd| <= 64 && Printable(usr[..Min(|usr|, 20)])
    requires i < |accounts| && SameName(accounts[i].usr, usr[..Min(|usr|, 20)]) && accounts[i].pwd == pwd
    ensures WelcomeWhatever(k, usr, pwd, accounts, i) <==> i == FindAccount(accounts, usr[..Min(|usr|, 20)])
  {
    hide Crypt, FindAccount, Printable, SameName, Padded, ClientLogin, ServerLogin;
    var name := usr[..Min(|usr|, 20)];
    var j := FindAccount(accounts, name);
    if i == j {
      forall before: seq<Account> | NamedAs(before, accounts[..i])
        ensures ServerLogin(k, ClientLogin(k, usr, pwd).data, before + accounts[i..])
                == Welcome(i, ClientLogin(k, usr, pwd).block)
      {
        var all := before + accounts[i..];
        forall m | 0 <= m < i
          ensures !SameName(all[m].usr, name)
        {
          assert all[m].usr == accounts[..i][m].usr == accounts[m].usr;
        }
        assert all[i] == accounts[i] && FindAccount(all, name) == i;
        LoginIsRecognised(k, usr, pwd, all);
      }
    } else {
      NeverBoth(k, usr, pwd, accounts, i);
    }
  }

  function WithPassword(accounts: seq<Account>, j: nat, pwd: CString): seq<Account>
    requires j < |accounts|
  {
    accounts[j := Account(accounts[j].usr, pwd)]
  }

  /** Two passwords of the first account of the name leave different bytes, so the account
      after it can be accepted with at most one of them. */
  lemma {:induction false} NeverBoth(k: Keys, usr: CString, pwd: CString, accounts: seq<Account>, i: nat)
    requires |pwd| <= 64 && Printable(usr[..Min(|usr|, 20)])
    requires i < |accounts| && SameName(accounts[i].usr, usr[..Min(|usr|, 20)]) && accounts[i].pwd == pwd
    requires FindAccount(accounts, usr[..Min(|usr|, 20)]) < i
    ensures !WelcomeWhatever(k, usr, pwd, accounts, i)
  {
    hide Crypt, FindAccount, Printable, SameName, Padded, ClientLogin, ServerLogin, Left, Proved;
    var name, saved := usr[..Min(|usr|, 20)], Saved(k, usr);
    var j := FindAccount(accounts, name);
    var proof := ProofSent(saved, pwd).data;
    if WelcomeWhatever(k, usr, pwd, accounts, i) {
      var one, two := WithPassword(accounts[..i], j, [1]), WithPassword(accounts[..i], j, [2]);
      LeftUnchanged(k, usr, pwd, accounts, i, one);
      LeftUnchanged(k, usr, pwd, accounts, i, two);
      assert one[..j] == two[..j] && one[j + 1..] == two[j + 1..];
      LeftAt(saved, proof, name, one, j);
      LeftAt(saved, proof, name, two, j);
      var x := Left(saved, proof, name, one[..j]);
      LeftIsInjective(saved, Proved(saved, one[j], x).data, Proved(saved, two[j], x).data, name, one[j + 1..]);
      PasswordsDiffer(saved, one[j], two[j], x);
      assert false;
    }
  }

  lemma {:induction false} LeftUnchanged(k: Keys, usr: CString, pwd: CString, accounts: seq<Account>, i: nat, before: seq<Account>)
    requires |pwd| <= 64 && Printable(usr[..Min(|usr|, 20)])
    requires i < |accounts| && SameName(accounts[i].usr, usr[..Min(|usr|, 20)]) && accounts[i].pwd == pwd
    requires WelcomeWhatever(k, usr, pwd, accounts, i) && NamedAs(before, accounts[..i])
    ensures var proof := ProofSent(Saved(k, usr), pwd).data;
            Left(Saved(k, usr), proof, usr[..Min(|usr|, 20)], before) == proof
  {
    hide Crypt, FindAccount, Printable, SameName, Padded, ClientLogin, ServerLogin, Left, Saved, ProofSent;
    var all := before + accounts[i..];
    assert all[i] == accounts[i] && all[..i] == before;
    RetryExactlyWhen(k, usr, pwd, all, i);
  }

  lemma {:induction false} LeftAt(saved: Block, proof: bytes, usr: CString, accounts: seq<Account>, j: nat)
    requires j < |accounts|
    ensures var x := Left(saved, proof, usr, accounts[..j]);
            Left(saved, proof, usr, accounts) == Left(saved, Attempted(saved, x, usr, accounts[j]), usr, accounts[j + 1..])
    decreases |accounts|
  {
    hide Attempted;
    if j == 0 {
    } else {
      var rest := accounts[1..];
      LeftAt(saved, Attempted(saved, proof, usr, accounts[0]), usr, rest, j - 1);
      assert rest[..j - 1] == accounts[..j][1..] && rest[j..] == accounts[j + 1..];
    }
  }

  /** Attempts leave different bytes of different bytes. */
  lemma {:induction false} LeftIsInjective(saved: Block, x: bytes, y: bytes, usr: CString, accounts: seq<Account>)
    requires |x| == |y| && Left(saved, x, usr, accounts) == Left(saved, y, usr, accounts)
    ensures x == y
    decreases |accounts|
  {
    hide Crypt, SameName;
    if accounts == [] {
    } else {
      var a := accounts[0];
      LeftIsInjective(saved, Attempted(saved, x, usr, a), Attempted(saved, y, usr, a), usr, accounts[1..]);
      var secret := Crypt(saved, a.pwd[..Min(|a.pwd|, 64)], Encrypt).block;
      EncryptUndoesDecrypt(secret, x);
      EncryptUndoesDecrypt(secret, y);
    }
  }

  lemma {:induction false} PasswordsDiffer(saved: Block, a: Account, b: Account, x: bytes)
    requires a.pwd == [1] && b.pwd == [2] && x != []
    ensures Proved(saved, a, x).data != Proved(saved, b, x).data
  {
    hide Crypt, Turn, KeyByte, Xor;
    assert a.pwd[..1] == [1] && b.pwd[..1] == [2];
    CryptOne(saved, 1, Encrypt);
    CryptOne(saved, 2, Encrypt);
    var one, two := Crypt(saved, [1], Encrypt).block, Crypt(saved, [2], Encrypt).block;
    FirstOfCrypt(one, x, Decrypt);
    FirstOfCrypt(two, x, Decrypt);
    var y := Xor(x[0], KeyByte(Turn(one.keys)));
    if Xor(y, one.state) == Xor(y, two.state) {
      XorCancels(one.state, y);
      XorCancels(two.state, y);
      XorLaws(y, one.state, 0);
      XorLaws(y, two.state, 0);
      XorCancels(1, saved.state);
      XorCancels(2, saved.state);
      XorLaws(saved.state, 1, 0);
      XorLaws(saved.state, 2, 0);
      assert false;
    }
  }

  lemma {:induction false} FirstOfCrypt(b: Block, xs: bytes, mode: Mode)
    requires xs != []
    ensures Crypt(b, xs, mode).data[0] == CryptByte(b, xs[0], mode).1
  {
    hide Crypt, CryptByte;
    assert xs == [xs[0]] + xs[1..];
    CryptConcat(b, [xs[0]], xs[1..], mode);
    CryptOne(b, xs[0], mode);
  }
}
