/** One end of a CCcam connection as an object: struct cc_data with its two cipher blocks,
    updated in place by the handshake, by sending and by receiving. */
module CcEndpoint {
  import opened Bytes
  import opened CcCrypt
  import opened CcFrames
  import opened CwMask
  import opened CcHandshake
  import opened CcSession

  class Endpoint {
    const enc: CryptBlock
    const dec: CryptBlock
    var flag: byte

    ghost predicate Valid()
      reads this, enc, dec
    {
      && enc.Valid() && dec.Valid() && enc != dec && enc.keytable != dec.keytable
    }

    ghost const Repr: set<object> := {this, enc, enc.keytable, dec, dec.keytable}

    ghost function Enc(): Block
      requires Valid()
      reads Repr
    {
      enc.View()
    }

    ghost function Dec(): Block
      requires Valid()
      reads Repr
    {
      dec.View()
    }

    constructor ()
      ensures Valid() && fresh(Repr) && flag == 0
    {
      enc := new CryptBlock();
      dec := new CryptBlock();
      flag := 0;
    }

    /** cc_crypt on a copy of data, as every sender and receiver here does */
    static method CryptCopy(block: CryptBlock, data: bytes, mode: Mode) returns (out: bytes)
      requires block.Valid()
      modifies block, block.keytable
      ensures block.Valid() && Crypted(block.View(), out) == Crypt(old(block.View()), data, mode)
    {
      hide Crypt;
      var buf := new byte[|data|](i requires 0 <= i < |data| => data[i]);
      assert buf[..] == data && buf[0..buf.Length] == data;
      block.CryptRange(buf, 0, buf.Length, mode);
      out := buf[..];
    }

    /** cc_srv_connect: keys on the server's side */
    method ServerKeys(seed: Seed, sha1: bytes -> Digest)
      requires Valid()
      modifies enc, enc.keytable, dec, dec.keytable
      ensures Valid() && Enc() == DeriveKeys(seed, sha1).outer && Dec() == DeriveKeys(seed, sha1).inner
    {
      hide Crypt, InitCrypt;
      var data := XorSeed(seed);
      var hash := sha1(data);
      enc.Init(hash);
      var key := CryptCopy(enc, data, Decrypt);
      dec.Init(key);
      var ignored := CryptCopy(dec, hash, Decrypt);
    }

    /** cc_cli_connect: the same keys, crossed over */
    method ClientKeys(seed: Seed, sha1: bytes -> Digest) returns (hash: Digest)
      requires Valid()
      modifies enc, enc.keytable, dec, dec.keytable
      ensures Valid() && DeriveKeys(seed, sha1) == Keys(Dec(), Enc(), hash)
    {
      hide Crypt, InitCrypt;
      var data := XorSeed(seed);
      hash := sha1(data);
      dec.Init(hash);
      var key := CryptCopy(dec, data, Decrypt);
      enc.Init(key);
      hash := CryptCopy(enc, hash, Decrypt);
    }

    /** cc_xor */
    static method XorSeed(seed: Seed) returns (data: Seed)
      ensures data == CcXor(seed)
    {
      hide Xor, Mul8;
      var buf := new byte[16](i requires 0 <= i < 16 => seed[i]);
      for i := 0 to 8
        invariant forall k :: 0 <= k < 8 ==> buf[k] == if k < i && k < 6 then Xor(seed[k], CCCAM[k]) else seed[k]
        invariant forall k :: 0 <= k < i ==> buf[8 + k] == Mul8(k, seed[k])
      {
        buf[8 + i] := Mul8(i, buf[i]);
        if i <= 5 {
          buf[i] := Xor(buf[i], CCCAM[i]);
        }
      }
      data := buf[..];
      forall k | 0 <= k < 16
        ensures data[k] == CcXor(seed)[k]
      {
        if k >= 8 {
          assert buf[8 + (k - 8)] == Mul8(k - 8, seed[k - 8]);
        }
      }
    }

    /** the client's three login messages */
    method Login(hash: Digest, usr: CString, pwd: CString) returns (wire: bytes)
      requires Valid()
      modifies enc, enc.keytable
      ensures Valid() && Dec() == old(Dec())
      ensures Crypted(Enc(), wire) == ClientLogin(Keys(old(Dec()), old(Enc()), hash), usr, pwd)
    {
      hide Crypt, Padded;
      var first := CryptCopy(enc, hash, Encrypt);
      var second := CryptCopy(enc, Padded(usr, 20), Encrypt);
      var ignored := CryptCopy(enc, pwd, Encrypt);
      var third := CryptCopy(enc, CCCAM, Encrypt);
      wire := first + second + third;
    }

    /** The server's side of the login: accounts of that name are tried one after the other,
        each from the saved block */
    method CheckLogin(wire: bytes, accounts: seq<Account>, ghost hash: Digest) returns (v: Verdict)
      requires Valid()
      modifies dec, dec.keytable
      ensures Valid() && Enc() == old(Enc())
      ensures v == ServerLogin(Keys(old(Enc()), old(Dec()), hash), wire, accounts)
      ensures v.Welcome? ==> v.block == Dec()
    {
      hide Crypt, Terminated, Printable, FindAccount;
      if |wire| < 46 {
        return Short;
      }
      var ignored := CryptCopy(dec, wire[..20], Decrypt);
      var name := CryptCopy(dec, wire[20..40], Decrypt);
      var usr := Terminated(name);
      if !Printable(usr) {
        return IllegalName;
      }
      var i, proof, found := 0, wire[40..46], false;
      ghost var saved := Dec();
      var keys, counter, sum, state := dec.keytable[..], dec.counter, dec.sum, dec.state;
      while i < |accounts|
        invariant Valid() && Enc() == old(Enc()) && i <= |accounts|
        invariant saved == Block(Keystream(keys, counter, sum), state)
        invariant found <==> FindAccount(accounts, usr) < i
        invariant Try(saved, wire[40..46], usr, accounts, 0) == Try(saved, proof, usr, accounts, i)
      {
        if SameName(accounts[i].usr, usr) {
          found := true;
          dec.Restore(keys, counter, sum, state);
          ignored := CryptCopy(dec, accounts[i].pwd[..Min(|accounts[i].pwd|, 64)], Encrypt);
          proof := CryptCopy(dec, proof, Decrypt);
          if proof == CCCAM {
            v := Accepted(i);
            return;
          }
        }
        i := i + 1;
      }
      v := if found then WrongPassword else NoAccount;
    }

    method Accepted(i: nat) returns (v: Verdict)
      requires Valid()
      ensures v == Welcome(i, Dec())
    {
      v := Welcome(i, Block(Keystream(dec.keytable[..], dec.counter, dec.sum), dec.state));
    }

    /** cc_cmd_send */
    method CmdSend(cmd: byte, payload: bytes) returns (wire: bytes)
      requires Valid()
      modifies enc, enc.keytable
      ensures Valid() && Dec() == old(Dec())
      ensures Crypted(Enc(), wire) == SendFrame(old(Enc()), flag, cmd, payload)
    {
      hide Crypt;
      wire := CryptCopy(enc, Header(flag, cmd, |payload|) + payload, Encrypt);
    }

    /** cc_msg_recv: the header first, then as many bytes as it announces */
    method MsgRecv(stream: bytes, maxlen: nat) returns (r: Received)
      requires Valid()
      modifies this, dec, dec.keytable
      ensures Valid() && Enc() == old(Enc())
      ensures r == RecvFrame(old(Dec()), stream, maxlen)
      ensures r.Frame? ==> Dec() == r.block && flag == r.flag
    {
      hide Crypt;
      if |stream| < 4 {
        return Incomplete;
      }
      var head := CryptCopy(dec, stream[..4], Decrypt);
      flag := head[0];
      var size := (head[2] as int) * 256 + head[3] as int;
      var body: bytes := [];
      if size != 0 {
        if size > maxlen {
          return TooBig;
        }
        if |stream| - 4 < size {
          return Incomplete;
        }
        body := CryptCopy(dec, stream[4..4 + size], Decrypt);
      }
      r := Frame(Block(Keystream(dec.keytable[..], dec.counter, dec.sum), dec.state), flag, head[1], body, stream[4 + size..]);
    }

    /** cc_send_dcw in normal mode: mask, send, and run the additional crypto step */
    method SendDcw(cw: ControlWord, node: NodeId, id: CardId) returns (wire: bytes)
      requires Valid()
      modifies enc, enc.keytable
      ensures Valid() && Dec() == old(Dec())
      ensures Crypted(Enc(), wire) == SendMessage(node, old(Enc()), Sent(flag, Answer(cw, id)))
    {
      hide Crypt, CwCrypt;
      var buf := new byte[16](i requires 0 <= i < 16 => cw[i]);
      assert buf[0..16] == cw && buf[..0] == [] && buf[16..] == [];
      CwCryptInPlace(buf, 0, node, id);
      assert buf[..] == CwCrypt(cw, node, id);
      wire := CmdSend(MSG_CW_ECM, buf[..]);
      var ignored := CryptCopy(enc, buf[..], Encrypt);
    }

    /** The client's side of an answer: unmask, store, and run its own additional step */
    method TakeDcw(payload: bytes, node: NodeId, id: CardId) returns (cw: ControlWord)
      requires Valid() && |payload| >= 16
      modifies dec, dec.keytable
      ensures Valid() && Enc() == old(Enc())
      ensures cw == CwCrypt(payload[..16], node, id)
      ensures Dec() == Crypt(old(Dec()), cw + payload[16..], Encrypt).block
    {
      hide Crypt, CwCrypt;
      var buf := new byte[|payload|](i requires 0 <= i < |payload| => payload[i]);
      assert buf[0..16] == payload[..16] && buf[..0] == [] && buf[16..] == payload[16..];
      CwCryptInPlace(buf, 0, node, id);
      assert buf[..16] == CwCrypt(payload[..16], node, id);
      cw := buf[..16];
      assert buf[..] == cw + payload[16..];
      var ignored := CryptCopy(dec, buf[..], Encrypt);
    }
  }

  /** The server's acknowledgement of a login. */
  const ACK: bytes := CCCAM + Zeros(14)

  function ClientAfterAck(sent: Block, outer: Block, wire: bytes): Client {
    Client(sent, Crypt(outer, wire, Decrypt).block, 0, false, None, None)
  }

  /** The session that starts when a login was accepted and acknowledged. */
  function FirstSession(node: NodeId, maxUp: nat, maxDown: nat, k: Keys, sent: Block, accepted: Block): Session {
    var ack := Crypt(k.outer, ACK, Encrypt);
    Session(node, maxUp, maxDown, ClientAfterAck(sent, k.outer, ack.data),
            Server(ack.block, accepted, 0, [], 0, None), [], [], [], [], [], [])
  }

  /** For every seed, user and password: if the first account of that name has the
      password, the server accepts, the client reads "CCcam" in the acknowledgement, and
      the session starts with its blocks paired. */
  lemma {:induction false} HandshakePairsTheBlocks(seed: Seed, sha1: bytes -> Digest, usr: CString, pwd: CString,
                                                   accounts: seq<Account>, node: NodeId, maxUp: nat, maxDown: nat)
    requires |pwd| <= 64 && Printable(usr[..Min(|usr|, 20)])
    requires var i := FindAccount(accounts, usr[..Min(|usr|, 20)]); i < |accounts| && accounts[i].pwd == pwd
    ensures var k := DeriveKeys(seed, sha1); var login := ClientLogin(k, usr, pwd);
            var v := ServerLogin(k, login.data, accounts);
            && v.Welcome?
            && Crypt(k.outer, Crypt(k.outer, ACK, Encrypt).data, Decrypt).data == ACK
            && Start(FirstSession(node, maxUp, maxDown, k, login.block, v.block))
  {
    hide Crypt, DeriveKeys, ClientLogin, ServerLogin, Printable, FindAccount;
    var k := DeriveKeys(seed, sha1);
    LoginIsRecognised(k, usr, pwd, accounts);
    DecryptUndoesEncrypt(k.outer, ACK);
  }
}
