/** CCcam framing: a four-byte header (flag, command, length) and a payload. The sender
    crypts a frame as one piece, the receiver as two (oscam/module-cccam.c:785-955). */
module CcFrames {
  import opened Bytes
  import opened CcCrypt

  function Header(flag: byte, cmd: byte, len: nat): (r: bytes)
    ensures |r| == 4
  {
    [flag, cmd, (len / 256) % 256, len % 256]
  }

  /** What cc_cmd_send puts on the wire. */
  function SendFrame(b: Block, flag: byte, cmd: byte, payload: bytes): Crypted {
    Crypt(b, Header(flag, cmd, |payload|) + payload, Encrypt)
  }

  datatype Received =
    | Incomplete
    | TooBig
    | Frame(block: Block, flag: byte, cmd: byte, payload: bytes, rest: bytes)

  /** What cc_msg_recv makes of a byte stream. */
  function RecvFrame(b: Block, stream: bytes, maxlen: nat): Received {
    if |stream| < 4 then Incomplete
    else
      var head := Crypt(b, stream[..4], Decrypt);
      var size := (head.data[2] as int) * 256 + head.data[3] as int;
      if size == 0 then Frame(head.block, head.data[0], head.data[1], [], stream[4..])
      else if size > maxlen then TooBig
      else if |stream| < 4 + size then Incomplete
      else
        var body := Crypt(head.block, stream[4..4 + size], Decrypt);
        Frame(body.block, head.data[0], head.data[1], body.data, stream[4 + size..])
  }

  /** The decrypted header of a frame whose sender is in step: only the flag byte shows
      the difference between the two `state` bytes. */
  lemma {:induction false} HeaderArrives(sender: Block, receiver: Block, flag: byte, cmd: byte, payload: bytes, rest: bytes)
    requires sender.keys == receiver.keys
    ensures var sent := SendFrame(sender, flag, cmd, payload);
            var body := Crypt(sender, Header(flag, cmd, |payload|), Encrypt).block;
            |sent.data| == 4 + |payload|
            && Crypt(receiver, (sent.data + rest)[..4], Decrypt)
               == Crypted(body, Header(Xor(Xor(flag, sender.state), receiver.state), cmd, |payload|))
            && Crypted(sent.block, sent.data[4..]) == Crypt(body, payload, Encrypt)
  {
    hide Crypt, Xor;
    var head := Header(flag, cmd, |payload|);
    CryptConcat(sender, head, payload, Encrypt);
    DecryptHeals(sender, receiver, head);
    var sent := SendFrame(sender, flag, cmd, payload);
    assert (sent.data + rest)[..4] == Crypt(sender, head, Encrypt).data;
    assert sent.data[4..] == Crypt(Crypt(sender, head, Encrypt).block, payload, Encrypt).data;
  }

  /** Command, length and payload of every frame that fits arrive unchanged, the stream
      is consumed exactly, and the two blocks are equal afterwards, whatever `state` the
      receiver had before. A frame that does not fit is reported as such. */
  lemma FrameArrives(sender: Block, receiver: Block, flag: byte, cmd: byte, payload: bytes, rest: bytes, maxlen: nat)
    requires sender.keys == receiver.keys && |payload| < 0x1_0000
    ensures var sent := SendFrame(sender, flag, cmd, payload);
            RecvFrame(receiver, sent.data + rest, maxlen)
            == if |payload| <= maxlen
               then Frame(sent.block, Xor(Xor(flag, sender.state), receiver.state), cmd, payload, rest)
               else TooBig
  {
    hide Crypt, Xor;
    HeaderArrives(sender, receiver, flag, cmd, payload, rest);
    var sent := SendFrame(sender, flag, cmd, payload);
    var stream, n := sent.data + rest, |payload|;
    var body := Crypt(sender, Header(flag, cmd, n), Encrypt).block;
    assert stream[4 + n..] == rest;
    if n == 0 {
      CryptNothing(body, Encrypt);
      assert payload == [];
    } else if n <= maxlen {
      assert stream[4..4 + n] == sent.data[4..];
      DecryptUndoesEncrypt(body, payload);
    }
  }

  /** For every payload length: a frame comes through exactly when its length fits the
      receiver's buffer and the two length bytes. */
  lemma FrameArrivesExactlyWhenItFits(sender: Block, receiver: Block, flag: byte, cmd: byte, payload: bytes, maxlen: nat)
    requires sender.keys == receiver.keys
    ensures var r := RecvFrame(receiver, SendFrame(sender, flag, cmd, payload).data, maxlen);
            r.Frame? && r.payload == payload <==> |payload| <= maxlen && |payload| < 0x1_0000
  {
    hide Crypt, Xor;
    var sent := SendFrame(sender, flag, cmd, payload);
    assert sent.data + [] == sent.data;
    if |payload| < 0x1_0000 {
      FrameArrives(sender, receiver, flag, cmd, payload, [], maxlen);
    } else {
      HeaderArrives(sender, receiver, flag, cmd, payload, []);
    }
  }

  /** What a frame says before it is encrypted: flag, command, the length with its higher byte first, and
      the payload. */
  lemma {:induction false} FrameSays(b: Block, flag: byte, cmd: byte, payload: bytes)
    requires |payload| < 0x1_0000
    ensures var said := Crypt(b, SendFrame(b, flag, cmd, payload).data, Decrypt).data;
            && |said| == 4 + |payload| && said[0] == flag && said[1] == cmd
            && said[2] as int * 256 + said[3] as int == |payload| && said[4..] == payload
  {
    hide Crypt;
    DecryptUndoesEncrypt(b, Header(flag, cmd, |payload|) + payload);
    assert |payload| == 256 * (|payload| / 256) + |payload| % 256;
  }
}
