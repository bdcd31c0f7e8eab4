/** What every run of a normal-mode CCcam session keeps. */
module CcSessionRuns {
  import opened Bytes
  import opened CcCrypt
  import opened CcFrames
  import opened CwMask
  import opened CcSession

  // Link: one direction of the session

  /** The flag byte arrives shifted by the skew that the message before left behind. */
  function FlagShift(node: NodeId, said: seq<Sent>, n: nat): byte
    requires n <= |said|
  {
    if n == 0 then 0 else Skew(said[n - 1].message, node)
  }

  /** What should be heard of message n. */
  function Expected(node: NodeId, said: seq<Sent>, n: nat): Heard
    requires n < |said|
  {
    var flag := Xor(said[n].flag, FlagShift(node, said, n));
    var m := said[n].message;
    if m.Answer? then HeardWord(flag, m.cw) else HeardFrame(flag, Command(m), Payload(m, node))
  }

  /** heard is what the first messages of said should sound like. */
  ghost predicate HeardSoFar(node: NodeId, said: seq<Sent>, heard: seq<Heard>) {
    && |heard| <= |said|
    && forall i :: 0 <= i < |heard| ==> heard[i] == Expected(node, said, i)
  }

  /** The sender's block as it was when message n was about to be sent. */
  function Lag(node: NodeId, b: Block, said: seq<Sent>, n: nat): Block
    requires n <= |said|
  {
    SendAll(node, b, said[..n]).block
  }

  /** The bytes under way are exactly messages n.., the receiver's keystream stands where
      the sender's stood before message n, and its `state` is off by a known byte. */
  ghost predicate Linked(node: NodeId, b: Block, said: seq<Sent>, n: nat, sender: Block, stream: bytes, receiver: Block) {
    && n <= |said|
    && SendAll(node, Lag(node, b, said, n), said[n..]) == Crypted(sender, stream)
    && receiver.keys == Lag(node, b, said, n).keys
    && receiver.state == Xor(Lag(node, b, said, n).state, FlagShift(node, said, n))
  }

  lemma LinkedAtStart(node: NodeId, b: Block)
    ensures Linked(node, b, [], 0, b, [], b)
  {
    hide Xor;
    XorLaws(b.state, 0, 0);
  }

  lemma LinkedAfterSend(node: NodeId, b: Block, said: seq<Sent>, n: nat, sender: Block, stream: bytes, receiver: Block, s: Sent)
    requires Linked(node, b, said, n, sender, stream, receiver)
    ensures var r := SendMessage(node, sender, s);
            Linked(node, b, said + [s], n, r.block, stream + r.data, receiver)
  {
    hide Xor, SendMessage, SendAll, Skew;
    assert (said + [s])[..n] == said[..n] && (said + [s])[n..] == said[n..] + [s];
    SendOneMore(node, Lag(node, b, said, n), said[n..], s);
  }

  /** The head of a linked stream decodes to the next message, and once the receiver has
      taken its own extra step on the plain word, the link holds for the rest. */
  lemma LinkedReceive(node: NodeId, b: Block, said: seq<Sent>, n: nat, sender: Block, stream: bytes, receiver: Block, maxlen: nat)
    requires Linked(node, b, said, n, sender, stream, receiver) && n < |said|
    requires |Payload(said[n].message, node)| < 0x1_0000
    ensures var m := said[n].message; var payload := Payload(m, node); var r := RecvFrame(receiver, stream, maxlen);
            if |payload| > maxlen then r.TooBig?
            else
              && r.Frame? && r.cmd == Command(m) && r.payload == payload
              && r.flag == Xor(said[n].flag, FlagShift(node, said, n))
              && Linked(node, b, said, n + 1, sender, r.rest,
                        Crypt(r.block, if m.Answer? then m.cw else [], Encrypt).block)
  {
    hide Xor, Crypt, Skew, SendFrame, RecvFrame, SendAll;
    var lag, head := Lag(node, b, said, n), said[n];
    var first := SendMessage(node, lag, head);
    var others := SendAll(node, first.block, said[n + 1..]);
    assert said[n..] == [head] + said[n + 1..];
    SendAllCons(node, lag, head, said[n + 1..]);
    var payload := Payload(head.message, node);
    FrameArrives(lag, receiver, head.flag, Command(head.message), payload, others.data, maxlen);
    if |payload| <= maxlen {
      assert said[..n + 1] == said[..n] + [head] && said[..n + 1][..n] == said[..n];
      SendOneMore(node, b, said[..n], head);
      assert Lag(node, b, said, n + 1) == first.block;
      FlagAlgebra(head.flag, lag.state, FlagShift(node, said, n));
      ExtraStepsAgree(node, SendFrame(lag, head.flag, Command(head.message), payload).block, head.message);
    }
  }

  lemma {:induction false} SendAllCons(node: NodeId, b: Block, s: Sent, rest: seq<Sent>)
    ensures var first := SendMessage(node, b, s); var others := SendAll(node, first.block, rest);
            SendAll(node, b, [s] + rest) == Crypted(others.block, first.data + others.data)
  {
    hide SendMessage;
    assert ([s] + rest)[1..] == rest;
  }

  lemma FlagAlgebra(f: byte, s: byte, k: byte)
    ensures Xor(Xor(f, s), Xor(s, k)) == Xor(f, k)
  {
    hide Xor;
    XorLaws(Xor(f, s), s, k);
    XorCancels(f, s);
  }

  /** The two extra steps after an answer run on different bytes: the keystreams agree,
      the `state` bytes differ by the mask's contribution. */
  lemma {:induction false} ExtraStepsAgree(node: NodeId, block: Block, m: Message)
    ensures var sender := Crypt(block, ExtraStep(m, node), Encrypt).block;
            var receiver := Crypt(block, if m.Answer? then m.cw else [], Encrypt).block;
            receiver.keys == sender.keys && receiver.state == Xor(sender.state, Skew(m, node))
  {
    hide Xor, Crypt, CwCrypt, Mask;
    if m.Answer? {
      var masked := CwCrypt(m.cw, node, m.id);
      KeystreamIgnoresData(block, block, masked, m.cw, Encrypt, Encrypt);
      EncryptState(block, masked);
      EncryptState(block, m.cw);
      MaskShiftsState(m.cw, node, m.id);
      var s, w, k := block.state, XorAll(m.cw), XorAll(Mask(node, m.id));
      XorLaws(s, Xor(w, k), k);
      XorCancels(w, k);
    } else {
      CryptNothing(block, Encrypt);
      XorLaws(block.state, 0, 0);
    }
  }

  // Correlation: at most one request is anywhere between the two ends

  /** The share id a message asks for, if it is a request. */
  function RequestOf(m: Message): seq<CardId> {
    if m.Note? && IsRequest(m.cmd, m.payload) then [U32(m.payload[6..10])] else []
  }

  /** The share id a message replies to, if it is a reply. */
  function ReplyOf(m: Message): seq<CardId> {
    if m.Note? then [] else [m.id]
  }

  function Requests(said: seq<Sent>): seq<CardId> {
    if said == [] then [] else RequestOf(said[0].message) + Requests(said[1..])
  }

  function Replies(said: seq<Sent>): seq<CardId> {
    if said == [] then [] else ReplyOf(said[0].message) + Replies(said[1..])
  }

  function Ids(pending: seq<Pending>): seq<CardId> {
    seq(|pending|, i requires 0 <= i < |pending| => pending[i].id)
  }

  lemma {:induction false} RequestsSnoc(said: seq<Sent>, x: Sent)
    ensures Requests(said + [x]) == Requests(said) + RequestOf(x.message)
  {
    hide RequestOf;
    if said == [] {
      assert (said + [x])[1..] == [];
    } else {
      RequestsSnoc(said[1..], x);
      assert (said + [x])[1..] == said[1..] + [x];
    }
  }

  lemma {:induction false} RepliesSnoc(said: seq<Sent>, x: Sent)
    ensures Replies(said + [x]) == Replies(said) + ReplyOf(x.message)
  {
    hide ReplyOf;
    if said == [] {
      assert (said + [x])[1..] == [];
    } else {
      RepliesSnoc(said[1..], x);
      assert (said + [x])[1..] == said[1..] + [x];
    }
  }

  /** Requests under way, requests the server holds, replies under way. */
  function Outstanding(s: Session): seq<CardId>
    requires |s.heardUp| <= |s.saidUp| && |s.heardDown| <= |s.saidDown|
  {
    Requests(s.saidUp[|s.heardUp|..]) + Ids(s.server.pending) + Replies(s.saidDown[|s.heardDown|..])
  }

  /** A card list message took away a card the client had asked. */
  ghost predicate WithdrawalHeard(s: Session) {
    exists i, id :: 0 <= i < |s.heardDown| && id in Requests(s.saidUp)
      && s.heardDown[i].HeardFrame? && Withdraws(s.heardDown[i].cmd, s.heardDown[i].payload, id)
  }

  ghost predicate OneAtATime(s: Session)
    requires |s.heardUp| <= |s.saidUp| && |s.heardDown| <= |s.saidDown|
  {
    var out := Outstanding(s);
    && (s.client.request.Some? ==> s.client.busy && out == [s.client.request.value]
                                   && s.client.request.value in Requests(s.saidUp))
    && (s.client.busy && s.client.request.None? ==> |out| == 1 && WithdrawalHeard(s))
    && (!s.client.busy ==> out == [])
  }

  /** Every message sent is of a kind the steps can send. */
  predicate WellSaidUp(m: Message) {
    m.Note? && |m.payload| < 0x1_0000 && (OrdinaryUp(m.cmd, m.payload) || IsRequest(m.cmd, m.payload))
  }

  predicate WellSaidDown(m: Message) {
    match m
    case Note(cmd, payload) => Ordinary(cmd, payload)
    case Answer(_, _) => true
    case Refusal(cmd, payload, _) => IsRefusal(cmd, payload)
  }

  predicate Fits(m: Message, node: NodeId, maxlen: nat) {
    |Payload(m, node)| <= maxlen && |Payload(m, node)| + 4 <= CC_MAXMSGSIZE
  }

  /** Why an end closed, at the message it was about to hear. */
  predicate ServerClosedFor(reason: Reason, m: Message, node: NodeId, maxlen: nat) {
    match reason
    case Oversize => !Fits(m, node, maxlen)
    case Ended => Fits(m, node, maxlen) && m.Note? && EndsServer(m.cmd)
    case NoRequest => false
  }

  predicate ClientClosedFor(reason: Reason, m: Message, node: NodeId, maxlen: nat) {
    match reason
    case Oversize => !Fits(m, node, maxlen)
    case Ended => Fits(m, node, maxlen) && m.Note? && EndsClient(m.cmd, m.payload)
    case NoRequest => m.Answer?
  }

  // The invariant

  ghost predicate UpSide(s: Session, b: Block) {
    && (forall x :: x in s.saidUp ==> WellSaidUp(x.message))
    && HeardSoFar(s.node, s.saidUp, s.heardUp)
    && (if s.server.closed.None?
        then Linked(s.node, b, s.saidUp, |s.heardUp|, s.client.enc, s.up, s.server.dec)
        else |s.heardUp| < |s.saidUp|
             && ServerClosedFor(s.server.closed.value, s.saidUp[|s.heardUp|].message, s.node, s.maxUp))
  }

  ghost predicate DownSide(s: Session, b: Block) {
    && (forall x :: x in s.saidDown ==> WellSaidDown(x.message))
    && HeardSoFar(s.node, s.saidDown, s.heardDown)
    && (s.client.closed.None? ==>
          Linked(s.node, b, s.saidDown, |s.heardDown|, s.server.enc, s.down, s.client.dec))
    && (s.client.closed.Some? ==>
          |s.heardDown| < |s.saidDown|
          && ClientClosedFor(s.client.closed.value, s.saidDown[|s.heardDown|].message, s.node, s.maxDown))
  }

  ghost predicate Correlated(s: Session)
    requires |s.heardUp| <= |s.saidUp| && |s.heardDown| <= |s.saidDown|
  {
    && (s.client.closed.None? ==> OneAtATime(s))
    && (s.client.closed == Some(NoRequest) ==> WithdrawalHeard(s))
  }

  /** b is the session at its start. */
  ghost predicate Invariant(s: Session, b: Session) {
    && s.node == b.node && s.maxUp == b.maxUp && s.maxDown == b.maxDown
    && UpSide(s, b.client.enc) && DownSide(s, b.server.enc) && Correlated(s)
  }

  lemma StartHolds(s: Session)
    requires Start(s)
    ensures Invariant(s, s)
  {
    hide SendAll, Xor;
    LinkedAtStart(s.node, s.client.enc);
    LinkedAtStart(s.node, s.server.enc);
  }

  lemma HeardSoFarKeeps(node: NodeId, said: seq<Sent>, heard: seq<Heard>, x: Sent)
    requires HeardSoFar(node, said, heard)
    ensures HeardSoFar(node, said + [x], heard)
  {
    hide Xor, Skew, Payload, Command;
    forall i | 0 <= i < |heard|
      ensures Expected(node, said + [x], i) == Expected(node, said, i)
    {
    }
  }

  lemma UpHolds(s: Session, b: Block, cmd: byte, payload: bytes)
    requires UpSide(s, b) && WellSaidUp(Note(cmd, payload))
    ensures UpSide(Up(s, cmd, payload), b)
  {
    hide SendMessage, SendAll, Linked, WellSaidUp, Expected;
    var x := Sent(s.client.flag, Note(cmd, payload));
    if s.server.closed.None? {
      LinkedAfterSend(s.node, b, s.saidUp, |s.heardUp|, s.client.enc, s.up, s.server.dec, x);
    }
    HeardSoFarKeeps(s.node, s.saidUp, s.heardUp, x);
  }

  lemma DownHolds(s: Session, b: Block, m: Message)
    requires DownSide(s, b) && WellSaidDown(m)
    ensures DownSide(Down(s, m), b)
  {
    hide SendMessage, SendAll, Linked, WellSaidDown, Expected;
    var x := Sent(s.server.flag, m);
    if s.client.closed.None? {
      LinkedAfterSend(s.node, b, s.saidDown, |s.heardDown|, s.server.enc, s.down, s.client.dec, x);
    }
    HeardSoFarKeeps(s.node, s.saidDown, s.heardDown, x);
  }

  lemma WithdrawalStays(s: Session, t: Session)
    requires WithdrawalHeard(s) && s.heardDown <= t.heardDown
    requires forall id :: id in Requests(s.saidUp) ==> id in Requests(t.saidUp)
    ensures WithdrawalHeard(t)
  {
    hide Withdraws, Requests;
    var i, id :| 0 <= i < |s.heardDown| && id in Requests(s.saidUp)
      && s.heardDown[i].HeardFrame? && Withdraws(s.heardDown[i].cmd, s.heardDown[i].payload, id);
    assert t.heardDown[i] == s.heardDown[i] && id in Requests(t.saidUp);
  }

  /** A new request goes out only when nothing is outstanding; other frames from the
      client change nothing that is outstanding. */
  lemma UpCorrelates(s: Session, cmd: byte, payload: bytes)
    requires |s.heardUp| <= |s.saidUp| && |s.heardDown| <= |s.saidDown|
    requires Correlated(s) && s.client.closed.None?
    requires RequestOf(Note(cmd, payload)) != [] ==> !s.client.busy
    ensures var t := Up(s, cmd, payload); var r := RequestOf(Note(cmd, payload));
            Correlated(if r == [] then t else t.(client := t.client.(busy := true, request := Some(r[0]))))
  {
    hide SendMessage, RequestOf, Requests, Replies, WithdrawalHeard;
    var x := Sent(s.client.flag, Note(cmd, payload));
    var r, t := RequestOf(x.message), Up(s, cmd, payload);
    RequestsSnoc(s.saidUp, x);
    RequestsSnoc(s.saidUp[|s.heardUp|..], x);
    assert t.saidUp[|s.heardUp|..] == s.saidUp[|s.heardUp|..] + [x];
    if r == [] {
      assert Outstanding(t) == Outstanding(s);
      if WithdrawalHeard(s) {
        WithdrawalStays(s, t);
      }
    } else {
      AtMostOne(x.message);
      assert Outstanding(s) == [];
      assert Outstanding(t) == r;
      assert r[0] in Requests(t.saidUp);
    }
  }

  lemma AtMostOne(m: Message)
    ensures |RequestOf(m)| <= 1
  {
  }

  /** Taking request k out of the list and putting its reply on the wire changes nothing
      that is outstanding. */
  lemma ReplyCorrelates(s: Session, k: nat, m: Message)
    requires |s.heardUp| <= |s.saidUp| && |s.heardDown| <= |s.saidDown|
    requires Correlated(s) && k < |s.server.pending| && ReplyOf(m) == [s.server.pending[k].id]
    ensures Correlated(Reply(s, k, m))
  {
    hide SendMessage, ReplyOf, Requests, Replies, WithdrawalHeard;
    var x := Sent(s.server.flag, m);
    var t := Reply(s, k, m);
    RepliesSnoc(s.saidDown[|s.heardDown|..], x);
    assert t.saidDown[|s.heardDown|..] == s.saidDown[|s.heardDown|..] + [x];
    if WithdrawalHeard(s) {
      WithdrawalStays(s, t);
    }
    if s.client.closed.None? {
      assert Ids(s.server.pending)[k] in Outstanding(s);
      assert |Outstanding(s)| == 1 && |s.server.pending| == 1;
      assert Outstanding(t) == Outstanding(s);
    }
  }

  lemma NoteCorrelates(s: Session, cmd: byte, payload: bytes)
    requires |s.heardUp| <= |s.saidUp| && |s.heardDown| <= |s.saidDown| && Correlated(s)
    ensures Correlated(Down(s, Note(cmd, payload)))
  {
    hide SendMessage, Requests, Replies, WithdrawalHeard;
    var x := Sent(s.server.flag, Note(cmd, payload));
    var t := Down(s, x.message);
    RepliesSnoc(s.saidDown[|s.heardDown|..], x);
    assert t.saidDown[|s.heardDown|..] == s.saidDown[|s.heardDown|..] + [x];
    if WithdrawalHeard(s) {
      WithdrawalStays(s, t);
    }
    assert Outstanding(t) == Outstanding(s);
  }

  /** With nothing left to hear, the stream is empty and nothing can be received. */
  lemma NothingToHear(node: NodeId, b: Block, said: seq<Sent>, sender: Block, stream: bytes, receiver: Block)
    requires Linked(node, b, said, |said|, sender, stream, receiver)
    ensures stream == [] && receiver.keys == sender.keys && receiver.state == Xor(sender.state, FlagShift(node, said, |said|))
  {
    hide Xor, Skew;
    assert said[|said|..] == [];
  }

  /** Nothing of what goes down has changed. */
  predicate SameDown(s: Session, t: Session) {
    && t.node == s.node && t.maxUp == s.maxUp && t.maxDown == s.maxDown && t.client == s.client && t.saidUp == s.saidUp
    && t.down == s.down && t.saidDown == s.saidDown && t.heardDown == s.heardDown && t.server.enc == s.server.enc
  }

  lemma SameDownSide(s: Session, t: Session, b: Block)
    requires DownSide(s, b) && SameDown(s, t)
    ensures DownSide(t, b)
  {
    hide Linked, HeardSoFar, WellSaidDown, ClientClosedFor;
  }

  lemma DownIsHeard(s: Session, b: Block)
    requires DownSide(s, b)
    ensures |s.heardDown| <= |s.saidDown|
  {
    hide Linked, Expected, WellSaidDown;
  }

  lemma ServerReceiveLeavesDown(s: Session)
    requires Enabled(s, ServerReceives)
    ensures SameDown(s, ServerReceive(s))
  {
    hide RecvFrame, IsRequest;
  }

  lemma ServerReceiveHolds(s: Session, b: Session)
    requires Invariant(s, b) && Enabled(s, ServerReceives)
    ensures Invariant(ServerReceive(s), b)
  {
    hide Linked, Xor, RecvFrame, Crypt, Requests, Replies, RequestOf, WithdrawalHeard, ServerHandles, OrdinaryUp, IsRequest,
         DownSide;
    var n, t := |s.heardUp|, ServerReceive(s);
    ServerReceiveLeavesDown(s);
    SameDownSide(s, t, b.server.enc);
    DownIsHeard(s, b.server.enc);
    if n == |s.saidUp| {
      NothingToHear(s.node, b.client.enc, s.saidUp, s.client.enc, s.up, s.server.dec);
      assert RecvFrame(s.server.dec, [], s.maxUp).Incomplete? by { EmptyIncomplete(s.server.dec, s.maxUp); }
      assert false;
    }
    var x := s.saidUp[n];
    LinkedReceive(s.node, b.client.enc, s.saidUp, n, s.client.enc, s.up, s.server.dec, s.maxUp);
    if Fits(x.message, s.node, s.maxUp) {
      var r := RecvFrame(s.server.dec, s.up, s.maxUp);
      CryptNothing(r.block, Encrypt);
      var idle := s.server.(dec := r.block, flag := r.flag);
      ServerTakes(idle, x.message.cmd, x.message.payload);
      assert s.saidUp[n..] == [x] + s.saidUp[n + 1..];
      RequestsCons(x, s.saidUp[n + 1..]);
      if s.client.closed.None? {
        RotateOne(RequestOf(x.message), Requests(s.saidUp[n + 1..]), Ids(s.server.pending), Replies(s.saidDown[|s.heardDown|..]));
        assert Outstanding(t) == Outstanding(s);
      }
      if WithdrawalHeard(s) {
        WithdrawalStays(s, t);
      }
    } else if WithdrawalHeard(s) {
      WithdrawalStays(s, t);
    }
  }

  lemma EmptyIncomplete(b: Block, maxlen: nat)
    ensures RecvFrame(b, [], maxlen).Incomplete?
  {
  }

  lemma {:induction false} RequestsCons(x: Sent, rest: seq<Sent>)
    ensures Requests([x] + rest) == RequestOf(x.message) + Requests(rest)
  {
    assert ([x] + rest)[1..] == rest;
  }

  lemma {:induction false} RepliesCons(x: Sent, rest: seq<Sent>)
    ensures Replies([x] + rest) == ReplyOf(x.message) + Replies(rest)
  {
    assert ([x] + rest)[1..] == rest;
  }

  /** In a list of at most one entry the order of the parts does not matter. */
  lemma RotateOne(a: seq<CardId>, b: seq<CardId>, c: seq<CardId>, d: seq<CardId>)
    requires |(a + b) + c + d| <= 1
    ensures (a + b) + c + d == b + (c + a) + d
  {
  }

  lemma ServerTakes(s: Server, cmd: byte, payload: bytes)
    ensures var t := ServerHandles(s, cmd, payload);
            t.enc == s.enc && t.dec == s.dec && t.flag == s.flag && t.closed == s.closed
            && Ids(t.pending) == Ids(s.pending) + RequestOf(Note(cmd, payload))
  {
  }

  /** What the client does with a frame that says m, when what is outstanding matches. */
  lemma ClientTakes(c: Client, node: NodeId, m: Message)
    requires WellSaidDown(m) && (m.Answer? && c.request.Some? ==> c.request.value == m.id)
    ensures var payload := Payload(m, node); var (t, heard) := ClientHandles(c, node, Command(m), payload);
            && t.enc == c.enc && t.flag == c.flag
            && (m.Answer? && c.request.None? ==> t == c.(closed := Some(NoRequest)))
            && (m.Answer? && c.request.Some? ==>
                  && heard == HeardWord(c.flag, m.cw)
                  && t == c.(dec := Crypt(c.dec, m.cw, Encrypt).block, busy := false, request := None))
            && (!m.Answer? ==> heard == HeardFrame(c.flag, Command(m), payload))
            && (m.Refusal? ==> t == c.(busy := false, request := None))
            && (m.Note? ==> t == if c.request.Some? && Withdraws(m.cmd, m.payload, c.request.value)
                                 then c.(request := None) else c)
  {
    hide Crypt, CwCryptByte, Xor, Withdraws;
    if m.Answer? && c.request.Some? {
      var payload := Payload(m, node);
      UnmaskUndoesMask(m.cw, node, m.id);
      assert payload[..16] == payload && payload[16..] == [];
      assert m.cw + [] == m.cw;
    }
  }

  lemma ClientHears(s: Session, b: Session)
    requires Invariant(s, b) && Enabled(s, ClientReceives)
    ensures |s.heardDown| < |s.saidDown|
  {
    hide Linked, Xor, RecvFrame, Crypt;
    if |s.heardDown| == |s.saidDown| {
      NothingToHear(s.node, b.server.enc, s.saidDown, s.server.enc, s.down, s.client.dec);
      EmptyIncomplete(s.client.dec, s.maxDown);
      assert false;
    }
  }

  /** The reply under way is the only thing outstanding, and it answers the request. */
  lemma ReplyMatches(s: Session)
    requires |s.heardUp| <= |s.saidUp| && |s.heardDown| < |s.saidDown| && OneAtATime(s)
    ensures var m := s.saidDown[|s.heardDown|].message; var rest := s.saidDown[|s.heardDown| + 1..];
            var without := Requests(s.saidUp[|s.heardUp|..]) + Ids(s.server.pending) + Replies(rest);
            if m.Note? then without == Outstanding(s)
            else without == [] && s.client.busy
                 && (s.client.request.Some? ==> s.client.request.value == m.id)
  {
    hide Requests, Replies, WithdrawalHeard;
    var n := |s.heardDown|;
    var x := s.saidDown[n];
    RepliesCons(x, s.saidDown[n + 1..]);
    assert s.saidDown[n..] == [x] + s.saidDown[n + 1..];
    assert Replies(s.saidDown[n..]) == ReplyOf(x.message) + Replies(s.saidDown[n + 1..]);
    if !x.message.Note? {
      assert x.message.id in Outstanding(s);
    }
  }

  lemma ClientReceiveHolds(s: Session, b: Session)
    requires Invariant(s, b) && Enabled(s, ClientReceives)
    ensures Invariant(ClientReceive(s), b)
  {
    hide Linked, Xor, RecvFrame, Crypt, Requests, Replies, ClientHandles, Withdraws, CwCrypt, FlagShift, WellSaidDown;
    ClientHears(s, b);
    var n, t := |s.heardDown|, ClientReceive(s);
    var m := s.saidDown[n].message;
    ReplyMatches(s);
    SaidDownIsShort(m, s.node);
    LinkedReceive(s.node, b.server.enc, s.saidDown, n, s.server.enc, s.down, s.client.dec, s.maxDown);
    if Fits(m, s.node, s.maxDown) {
      var r := RecvFrame(s.client.dec, s.down, s.maxDown);
      CryptNothing(r.block, Encrypt);
      var c := s.client.(dec := r.block, flag := r.flag);
      ClientTakes(c, s.node, m);
      OnlyNotesEnd(m, s.node);
      if t.client.closed.None? {
        assert t.heardDown[n] == Expected(s.node, s.saidDown, n);
        assert DownSide(t, b.server.enc);
        ClientStaysCorrelated(s, t);
      }
    } else {
      assert t == s.(client := s.client.(closed := Some(Oversize)));
    }
  }

  lemma SaidDownIsShort(m: Message, node: NodeId)
    requires WellSaidDown(m)
    ensures |Payload(m, node)| < 0x1_0000
  {
    hide CwCryptByte;
  }

  lemma OnlyNotesEnd(m: Message, node: NodeId)
    requires WellSaidDown(m)
    ensures EndsClient(Command(m), Payload(m, node)) <==> m.Note? && EndsClient(m.cmd, m.payload)
  {
    hide CwCrypt;
  }

  /** t is s after the client took message |s.heardDown| and stayed open. */
  lemma ClientStaysCorrelated(s: Session, t: Session)
    requires |s.heardUp| <= |s.saidUp| && |s.heardDown| < |s.saidDown| && OneAtATime(s)
    requires t.saidUp == s.saidUp && t.heardUp == s.heardUp && t.saidDown == s.saidDown && t.server == s.server
    requires |t.heardDown| == |s.heardDown| + 1 && s.heardDown <= t.heardDown
    requires var m := s.saidDown[|s.heardDown|].message;
             if m.Note?
             then && t.heardDown[|s.heardDown|].HeardFrame?
                  && t.heardDown[|s.heardDown|].cmd == m.cmd && t.heardDown[|s.heardDown|].payload == m.payload
                  && t.client.busy == s.client.busy
                  && (t.client.request == s.client.request
                      || (s.client.request.Some? && Withdraws(m.cmd, m.payload, s.client.request.value)
                          && t.client.request.None?))
             else !t.client.busy && t.client.request.None?
    ensures OneAtATime(t)
  {
    hide Requests, Replies, Withdraws;
    ReplyMatches(s);
    if WithdrawalHeard(s) {
      WithdrawalStays(s, t);
    }
  }

  lemma NextHolds(s: Session, b: Session, step: Step)
    requires Invariant(s, b) && Enabled(s, step)
    ensures Invariant(Next(s, step), b)
  {
    hide UpSide, DownSide, Correlated, SendMessage, RecvFrame, IsRequest, EcmPayload;
    BothSidesOrdered(s, b);
    match step
    case ClientSends(cmd, payload) =>
      OrdinaryIsWellSaid(cmd, payload);
      UpHolds(s, b.client.enc, cmd, payload);
      UpCorrelates(s, cmd, payload);
      UpLeavesDown(s, Up(s, cmd, payload), b.server.enc);
    case ClientAsks(cp, id, sl, ecm) =>
      var payload := EcmPayload(cp, id, sl, ecm);
      RequestIsWellSaid(cp, id, sl, ecm);
      UpHolds(s, b.client.enc, MSG_CW_ECM, payload);
      UpCorrelates(s, MSG_CW_ECM, payload);
      UpLeavesDown(s, Up(s, MSG_CW_ECM, payload), b.server.enc);
      AskingLeavesSides(Up(s, MSG_CW_ECM, payload), id, b);
    case ServerSends(cmd, payload) =>
      DownHolds(s, b.server.enc, Note(cmd, payload)) by { assert WellSaidDown(Note(cmd, payload)); }
      NoteCorrelates(s, cmd, payload);
      DownLeavesUp(s, Down(s, Note(cmd, payload)), b.client.enc);
    case ServerAnswers(idx, cw) =>
      var k := FindPending(s.server.pending, idx).value;
      ReplyHolds(s, b, k, Answer(cw, s.server.pending[k].id));
    case ServerRefuses(idx, cmd, payload) =>
      var k := FindPending(s.server.pending, idx).value;
      ReplyHolds(s, b, k, Refusal(cmd, payload, s.server.pending[k].id));
    case ClientReceives => ClientReceiveHolds(s, b);
    case ServerReceives => ServerReceiveHolds(s, b);
  }

  lemma BothSidesOrdered(s: Session, b: Session)
    requires Invariant(s, b)
    ensures |s.heardUp| <= |s.saidUp| && |s.heardDown| <= |s.saidDown|
  {
  }

  lemma OrdinaryIsWellSaid(cmd: byte, payload: bytes)
    requires OrdinaryUp(cmd, payload)
    ensures WellSaidUp(Note(cmd, payload)) && RequestOf(Note(cmd, payload)) == []
  {
  }

  lemma RequestIsWellSaid(cp: bytes, id: CardId, sl: bytes, ecm: bytes)
    requires |cp| == 6 && |sl| == 3 && 0 < |ecm| < MAX_ECM_SIZE
    ensures var m := Note(MSG_CW_ECM, EcmPayload(cp, id, sl, ecm));
            WellSaidUp(m) && RequestOf(m) == [id]
  {
    var payload := EcmPayload(cp, id, sl, ecm);
    assert payload[6..10] == BigEndian(4, id);
    WordSizes();
    ValueOfBigEndian(4, id);
  }

  lemma UpLeavesDown(s: Session, t: Session, b: Block)
    requires DownSide(s, b)
    requires t.node == s.node && t.maxDown == s.maxDown && t.saidDown == s.saidDown && t.heardDown == s.heardDown
    requires t.server == s.server && t.down == s.down && t.client == s.client.(enc := t.client.enc)
    ensures DownSide(t, b)
  {
    hide Linked, HeardSoFar, WellSaidDown;
  }

  lemma DownLeavesUp(s: Session, t: Session, b: Block)
    requires UpSide(s, b)
    requires t.node == s.node && t.maxUp == s.maxUp && t.saidUp == s.saidUp && t.heardUp == s.heardUp
    requires t.client == s.client && t.up == s.up
    requires t.server == s.server.(enc := t.server.enc, pending := t.server.pending)
    ensures UpSide(t, b)
  {
    hide Linked, HeardSoFar, WellSaidUp;
  }

  lemma AskingLeavesSides(s: Session, id: CardId, b: Session)
    requires UpSide(s, b.client.enc) && DownSide(s, b.server.enc)
    ensures var t := s.(client := s.client.(busy := true, request := Some(id)));
            UpSide(t, b.client.enc) && DownSide(t, b.server.enc)
  {
    hide Linked, HeardSoFar, WellSaidUp, WellSaidDown;
  }

  lemma ReplyHolds(s: Session, b: Session, k: nat, m: Message)
    requires Invariant(s, b) && k < |s.server.pending| && WellSaidDown(m)
    requires ReplyOf(m) == [s.server.pending[k].id]
    ensures Invariant(Reply(s, k, m), b)
  {
    hide Linked, HeardSoFar, WellSaidUp, WellSaidDown, Correlated, SendMessage;
    BothSidesOrdered(s, b);
    var u := s.(server := s.server.(pending := Remove(s.server.pending, k)));
    assert DownSide(u, b.server.enc);
    DownHolds(u, b.server.enc, m);
    ReplyCorrelates(s, k, m);
    DownLeavesUp(s, Reply(s, k, m), b.client.enc);
  }

  /** The session theorem. After any run from a completed handshake, with sends, answers
      and deliveries interleaved in any way:
      - what each end has heard is what the other end said, message for message: command,
        length and payload unchanged, every control word recovered, and the flag byte off
        only by the mask's contribution right after an answer;
      - while the client is open, the keystreams of the paired blocks agree once all has
        been heard, and the `state` bytes differ by that same known byte;
      - an end closes only at a frame that does not fit or tells it to end, or, for the client,
        at an answer to a request whose card the server has meanwhile taken away. */
  lemma {:induction false} SessionStaysInStep(b: Session, steps: seq<Step>)
    requires Start(b) && Possible(b, steps)
    ensures var s := Run(b, steps);
            && HeardSoFar(b.node, s.saidUp, s.heardUp)
            && HeardSoFar(b.node, s.saidDown, s.heardDown)
            && (s.client.closed.None? && |s.heardDown| == |s.saidDown| ==>
                  && s.down == [] && s.client.dec.keys == s.server.enc.keys
                  && s.client.dec.state == Xor(s.server.enc.state, FlagShift(b.node, s.saidDown, |s.saidDown|)))
            && (s.server.closed.None? && |s.heardUp| == |s.saidUp| ==> s.up == [] && s.server.dec == s.client.enc)
            && (s.client.closed == Some(NoRequest) ==> WithdrawalHeard(s))
            && (s.client.closed.Some? ==>
                  |s.heardDown| < |s.saidDown|
                  && ClientClosedFor(s.client.closed.value, s.saidDown[|s.heardDown|].message, b.node, b.maxDown))
            && (s.server.closed.Some? ==>
                  |s.heardUp| < |s.saidUp|
                  && ServerClosedFor(s.server.closed.value, s.saidUp[|s.heardUp|].message, b.node, b.maxUp))
  {
    hide Linked, HeardSoFar, Start, Next, Enabled, FlagShift, WithdrawalHeard, OneAtATime, WellSaidUp, WellSaidDown, Fits;
    StartHolds(b);
    RunHolds(b, b, steps);
    var s := Run(b, steps);
    if s.client.closed.None? && |s.heardDown| == |s.saidDown| {
      NothingToHear(b.node, b.server.enc, s.saidDown, s.server.enc, s.down, s.client.dec);
    }
    if s.server.closed.None? && |s.heardUp| == |s.saidUp| {
      NothingToHear(b.node, b.client.enc, s.saidUp, s.client.enc, s.up, s.server.dec);
      UpNeverSkews(b.node, s.saidUp);
      XorLaws(s.client.enc.state, 0, 0);
    }
  }

  /** Nothing the client sends makes the two cipher states differ. */
  lemma UpNeverSkews(node: NodeId, said: seq<Sent>)
    requires forall x :: x in said ==> WellSaidUp(x.message)
    ensures FlagShift(node, said, |said|) == 0
  {
    hide Mask;
    if said != [] {
      assert said[|said| - 1] in said;
    }
  }

  lemma {:induction false} RunHolds(s: Session, b: Session, steps: seq<Step>)
    requires Invariant(s, b) && Possible(s, steps)
    ensures Invariant(Run(s, steps), b)
    decreases steps
  {
    hide Invariant, Next, Enabled;
    if steps == [] {
    } else {
      NextHolds(s, b, steps[0]);
      RunHolds(Next(s, steps[0]), b, steps[1..]);
    }
  }

  lemma LinkedCanReceive(node: NodeId, b: Block, said: seq<Sent>, n: nat, sender: Block, stream: bytes, receiver: Block, maxlen: nat)
    requires Linked(node, b, said, n, sender, stream, receiver)
    requires n < |said| ==> |Payload(said[n].message, node)| < 0x1_0000
    ensures !RecvFrame(receiver, stream, maxlen).Incomplete? <==> n < |said|
  {
    hide RecvFrame, Linked;
    if n < |said| {
      LinkedReceive(node, b, said, n, sender, stream, receiver, maxlen);
    } else {
      assert n == |said| by { LinkedInRange(node, b, said, n, sender, stream, receiver); }
      NothingToHear(node, b, said, sender, stream, receiver);
      EmptyIncomplete(receiver, maxlen);
    }
  }

  lemma LinkedInRange(node: NodeId, b: Block, said: seq<Sent>, n: nat, sender: Block, stream: bytes, receiver: Block)
    requires Linked(node, b, said, n, sender, stream, receiver)
    ensures n <= |said|
  {
  }

  /** Progress: an open end can receive exactly when something said to it is still unheard. */
  lemma {:induction false} UnheardMessagesCanBeReceived(b: Session, steps: seq<Step>)
    requires Start(b) && Possible(b, steps)
    ensures var s := Run(b, steps);
            && (s.client.closed.None? ==> (Enabled(s, ClientReceives) <==> |s.heardDown| < |s.saidDown|))
            && (s.server.closed.None? ==> (Enabled(s, ServerReceives) <==> |s.heardUp| < |s.saidUp|))
  {
    hide Linked, Start, Next, OneAtATime, RecvFrame, HeardSoFar, WithdrawalHeard, Fits, Payload;
    StartHolds(b);
    RunHolds(b, b, steps);
    var s := Run(b, steps);
    AllSaidIsShort(s, b);
    if s.client.closed.None? {
      LinkedCanReceive(s.node, b.server.enc, s.saidDown, |s.heardDown|, s.server.enc, s.down, s.client.dec, s.maxDown);
    }
    if s.server.closed.None? {
      LinkedCanReceive(s.node, b.client.enc, s.saidUp, |s.heardUp|, s.client.enc, s.up, s.server.dec, s.maxUp);
    }
  }

  lemma AllSaidIsShort(s: Session, b: Session)
    requires Invariant(s, b)
    ensures forall x :: x in s.saidUp || x in s.saidDown ==> |Payload(x.message, s.node)| < 0x1_0000
  {
    hide Linked, HeardSoFar, Correlated, Fits;
    forall x | x in s.saidDown
      ensures |Payload(x.message, s.node)| < 0x1_0000
    {
      SaidDownIsShort(x.message, s.node);
    }
  }

  // The one way an answer is lost

  lemma ServerHearsNext(s: Session, b: Session)
    requires Invariant(s, b) && s.server.closed.None? && |s.heardUp| < |s.saidUp|
    requires Fits(s.saidUp[|s.heardUp|].message, s.node, s.maxUp)
    requires s.saidUp[|s.heardUp|].message.Note? && !EndsServer(s.saidUp[|s.heardUp|].message.cmd)
    ensures Enabled(s, ServerReceives)
    ensures var m := s.saidUp[|s.heardUp|].message; var t := Next(s, ServerReceives);
            && t.client == s.client && t.saidDown == s.saidDown && t.heardDown == s.heardDown && t.maxDown == s.maxDown
            && t.server.closed.None? && t.server.pending == ServerHandles(s.server, m.cmd, m.payload).pending
  {
    hide Linked, HeardSoFar, RecvFrame, DownSide, Correlated, IsRequest;
    var x := s.saidUp[|s.heardUp|];
    assert x in s.saidUp;
    SaidUpIsShort(x.message, s.node);
    LinkedReceive(s.node, b.client.enc, s.saidUp, |s.heardUp|, s.client.enc, s.up, s.server.dec, s.maxUp);
  }

  lemma SaidUpIsShort(m: Message, node: NodeId)
    requires WellSaidUp(m)
    ensures |Payload(m, node)| < 0x1_0000
  {
  }

  // Which frames these are

  /** The server takes what a client asks for a request exactly if the ECM has at least one and fewer than 1024
      bytes, and finds the share id in it. */
  lemma RequestExactlyWhen(cp: bytes, id: CardId, sl: bytes, ecm: bytes)
    requires |cp| == 6 && |sl| == 3
    ensures IsRequest(MSG_CW_ECM, EcmPayload(cp, id, sl, ecm)) <==> 0 < |ecm| < 1024
    ensures U32(EcmPayload(cp, id, sl, ecm)[6..10]) == id
  {
    hide BigEndian, Value;
    assert EcmPayload(cp, id, sl, ecm)[6..10] == BigEndian(4, id);
    WordSizes();
    ValueOfBigEndian(4, id);
  }

  /** Requests the server has taken one after the other are told apart by their numbers. */
  lemma NumbersDiffer(s: Server, first: bytes, second: bytes)
    requires IsRequest(MSG_CW_ECM, first) && IsRequest(MSG_CW_ECM, second) && s.lastIdx < 0x1_0000
    ensures var t := ServerHandles(ServerHandles(s, MSG_CW_ECM, first), MSG_CW_ECM, second); var n := |s.pending|;
            && |t.pending| == n + 2 && t.pending[n].id == U32(first[6..10]) && t.pending[n + 1].id == U32(second[6..10])
            && t.pending[n].idx != t.pending[n + 1].idx && t.pending[n].idx != s.lastIdx
  {
    hide Value;
  }

  /** A card is withdrawn by a removal that begins with its share id, and by the server data of a login. */
  lemma {:induction false} WithdrawnExactlyWhen(cmd: byte, payload: bytes, id: CardId)
    ensures Withdraws(cmd, payload, id)
            <==> (cmd == 4 && BigEndian(4, id) <= payload) || (cmd == 8 && |payload| == 72)
  {
    hide BigEndian, Value;
    WordSizes();
    ValueOfBigEndian(4, id);
    if |payload| >= 4 {
      BigEndianOfValue(payload[..4]);
      assert BigEndian(4, id) <= payload <==> payload[..4] == BigEndian(4, id);
    }
  }

  lemma {:induction false} BigEndianOfValue(b: bytes)
    ensures BigEndian(|b|, Value(b)) == b
  {
    if b == [] {
    } else {
      BigEndianOfValue(b[..|b| - 1]);
      assert b == b[..|b| - 1] + [b[|b| - 1]];
    }
  }

  /** Refusals are empty but for one byte at most; 0x80 counts only with it. */
  lemma RefusalExactlyWhen(cmd: byte, payload: bytes)
    ensures IsRefusal(cmd, payload) <==> (|payload| <= 1 && cmd >= 0xfe) || (|payload| == 1 && cmd == 0x80)
  {
  }

  /** An answer to a request the client still has, and every refusal, leaves it free to ask again; until
      then it asks nothing, whatever else it hears. */
  lemma RepliesFreeTheClient(s: Session, b: Session)
    requires Invariant(s, b) && s.client.closed.None? && |s.heardDown| < |s.saidDown|
    requires Fits(s.saidDown[|s.heardDown|].message, s.node, s.maxDown)
    ensures Enabled(s, ClientReceives)
    ensures var m, c := s.saidDown[|s.heardDown|].message, Next(s, ClientReceives).client;
            && (m.Refusal? || (m.Answer? && s.client.request.Some?) ==> c.closed.None? && !c.busy && c.request.None?)
            && (m.Note? ==> c.busy == s.client.busy)
  {
    hide Linked, HeardSoFar, RecvFrame, UpSide, Correlated, Crypt, CwCrypt, IsRequest;
    var x := s.saidDown[|s.heardDown|];
    LinkedReceive(s.node, b.server.enc, s.saidDown, |s.heardDown|, s.server.enc, s.down, s.client.dec, s.maxDown);
  }

  /** What the client does next: an answer is lost, and the session with it, exactly when
      the pending request has been dropped before it. */
  lemma ClientHearsNext(s: Session, b: Session)
    requires Invariant(s, b) && s.client.closed.None? && |s.heardDown| < |s.saidDown|
    requires Fits(s.saidDown[|s.heardDown|].message, s.node, s.maxDown)
    ensures Enabled(s, ClientReceives)
    ensures var m := s.saidDown[|s.heardDown|].message; var t := Next(s, ClientReceives);
            && t.saidDown == s.saidDown && t.maxDown == s.maxDown
            && (t.client.closed == Some(NoRequest) <==> m.Answer? && s.client.request.None?)
            && (t.client.closed == Some(Ended) <==> m.Note? && EndsClient(m.cmd, m.payload))
            && (t.client.closed.None? ==> |t.heardDown| == |s.heardDown| + 1)
            && (m.Note? && !EndsClient(m.cmd, m.payload) ==>
                  && t.client.closed.None?
                  && t.client.request == if s.client.request.Some? && Withdraws(m.cmd, m.payload, s.client.request.value)
                                         then None else s.client.request)
  {
    hide Linked, HeardSoFar, RecvFrame, UpSide, Crypt, Requests, Replies, Withdraws, ClientHandles, CwCrypt;
    BothSidesOrdered(s, b);
    var n := |s.heardDown|;
    var m := s.saidDown[n].message;
    ReplyMatches(s);
    SaidDownIsShort(m, s.node);
    LinkedReceive(s.node, b.server.enc, s.saidDown, n, s.server.enc, s.down, s.client.dec, s.maxDown);
    var r := RecvFrame(s.client.dec, s.down, s.maxDown);
    ClientTakes(s.client.(dec := r.block, flag := r.flag), s.node, m);
  }

  /** The loss is real: from every completed handshake with ordinary buffers, a server
      that takes the asked card away and then answers makes the client close. */
  lemma WithdrawnCardLosesItsAnswer(b: Session, id: CardId, cw: ControlWord)
    returns (steps: seq<Step>)
    requires Start(b) && b.maxUp >= 1020 && b.maxDown >= 1020
    ensures Possible(b, steps) && Run(b, steps).client.closed == Some(NoRequest)
  {
    hide Invariant, SendMessage, RecvFrame, CwCrypt, ClientReceive, ServerReceive, Withdraws, EcmPayload, IsRequest;
    var ask := ClientAsks(Zeros(6), id, Zeros(3), Zeros(1));
    var payload := EcmPayload(Zeros(6), id, Zeros(3), Zeros(1));
    StartHolds(b);
    assert Enabled(b, ask);
    var s1 := Next(b, ask);
    NextHolds(b, b, ask);
    RequestIsWellSaid(Zeros(6), id, Zeros(3), Zeros(1));
    RequestLength(id);
    ServerHearsNext(s1, b);
    var s2 := Next(s1, ServerReceives);
    NextHolds(s1, b, ServerReceives);
    var remove := ServerSends(MSG_CARD_REMOVED, BigEndian(4, id));
    var s3 := Next(s2, remove);
    NextHolds(s2, b, remove);
    var answer := ServerAnswers(s3.server.pending[0].idx, cw);
    var s4 := Next(s3, answer);
    NextHolds(s3, b, answer);
    assert s4.heardDown == [] && |s4.saidDown| == 2;
    assert s4.saidDown[0].message == Note(MSG_CARD_REMOVED, BigEndian(4, id));
    assert s4.client.request == Some(id);
    ClientHearsNext(s4, b);
    RemovalWithdraws(id);
    var s5 := Next(s4, ClientReceives);
    NextHolds(s4, b, ClientReceives);
    assert s5.client.request.None? && s5.saidDown[1].message.Answer?;
    assert Fits(s5.saidDown[1].message, s5.node, s5.maxDown);
    ClientHearsNext(s5, b);
    steps := [];
    steps := RunCons(s5, ClientReceives, steps);
    steps := RunCons(s4, ClientReceives, steps);
    steps := RunCons(s3, answer, steps);
    steps := RunCons(s2, remove, steps);
    steps := RunCons(s1, ServerReceives, steps);
    steps := RunCons(b, ask, steps);
  }

  lemma RunCons(s: Session, step: Step, rest: seq<Step>) returns (steps: seq<Step>)
    requires Enabled(s, step) && Possible(Next(s, step), rest)
    ensures steps == [step] + rest && Possible(s, steps) && Run(s, steps) == Run(Next(s, step), rest)
  {
    hide Next, Enabled;
    steps := [step] + rest;
    assert steps[1..] == rest;
  }

  lemma RequestLength(id: CardId)
    ensures |EcmPayload(Zeros(6), id, Zeros(3), Zeros(1))| == 14
    ensures IsRequest(MSG_CW_ECM, EcmPayload(Zeros(6), id, Zeros(3), Zeros(1)))
  {
  }

  lemma {:induction false} RemovalWithdraws(id: CardId)
    ensures Withdraws(MSG_CARD_REMOVED, BigEndian(4, id), id)
  {
    WordSizes();
    ValueOfBigEndian(4, id);
    assert BigEndian(4, id)[..4] == BigEndian(4, id);
  }
}
