/** A normal-mode CCcam session: one client (reader) and one server joined by two byte
    streams, in any interleaving of sends, answers and deliveries
    (oscam/module-cccam.c:578-668, 785-955, 1740-1960, 3440-3690, 4057-4130). */
module CcSession {
  import opened Bytes
  import opened CcCrypt
  import opened CcFrames
  import opened CwMask

  const MSG_CW_ECM: byte := 1
  const MSG_EMM_ACK: byte := 2
  const MSG_CARD_REMOVED: byte := 4
  const MSG_CMD_05: byte := 5
  const MSG_SRV_DATA: byte := 8
  const MSG_CMD_0B: byte := 0x0b
  const MSG_CMD_0C: byte := 0x0c
  const MSG_CMD_0E: byte := 0x0e
  const MSG_SLEEPSEND: byte := 0x80
  const MSG_CW_NOK1: byte := 0xfe
  const MSG_CW_NOK2: byte := 0xff

  const CCMSG_HEADER_LEN := 17
  const MAX_ECM_SIZE := 1024

  // Messages

  /** What one end tells the other. An answer carries the plain control word and the
      share id of the request; a refusal is a NOK for such a request. */
  datatype Message =
    | Note(cmd: byte, payload: bytes)
    | Answer(cw: ControlWord, id: CardId)
    | Refusal(cmd: byte, payload: bytes, id: CardId)

  predicate IsRefusal(cmd: byte, payload: bytes) {
    cmd in {MSG_CW_NOK1, MSG_CW_NOK2, MSG_SLEEPSEND} && |payload| <= 1
    && (cmd == MSG_SLEEPSEND ==> |payload| == 1)
  }

  /** "PARTNER:" */
  const PARTNER: bytes := [0x50, 0x41, 0x52, 0x54, 0x4e, 0x45, 0x52, 0x3a]

  /** A NOK that introduces an OSCam peer; it may switch the extended mode on. */
  predicate IsPartner(cmd: byte, payload: bytes) {
    cmd in {MSG_CW_NOK1, MSG_CW_NOK2, MSG_SLEEPSEND} && PARTNER <= payload
  }

  /** chk_peer_node_for_oscam: the last two bytes of an OSCam node id check the others. */
  predicate IsOscamNode(node: NodeId) {
    var n := (i: nat) requires i < 8 => node[i] as int;
    0x1234 + n(0) + n(1) + n(2) + n(3) + n(4) + n(5) == n(6) * 256 + n(7)
  }

  /** Frames by which two ends leave the normal mode: partners that introduce themselves, server
      data a client answers by doing so, and the exchanges that put further ciphers in place. */
  predicate LeavesNormalMode(cmd: byte, payload: bytes) {
    || cmd in {MSG_CMD_05, MSG_CMD_0B, MSG_CMD_0C}
    || IsPartner(cmd, payload)
    || (cmd == MSG_SRV_DATA && |payload| == 0x48 && IsOscamNode(payload[..8]))
  }

  /** Frames on which an end gives the connection up; only the client reads server data so. */
  predicate EndsServer(cmd: byte) {
    cmd == MSG_CMD_0E
  }

  predicate EndsClient(cmd: byte, payload: bytes) {
    cmd == MSG_CMD_0E || (cmd == MSG_SRV_DATA && |payload| == 0x23)
  }

  function Command(m: Message): byte {
    match m
    case Note(cmd, _) => cmd
    case Answer(_, _) => MSG_CW_ECM
    case Refusal(cmd, _, _) => cmd
  }

  function Payload(m: Message, node: NodeId): bytes {
    match m
    case Note(_, payload) => payload
    case Answer(cw, id) => CwCrypt(cw, node, id)
    case Refusal(_, payload, _) => payload
  }

  /** Bytes of the sender's additional crypto step after a message: the masked control
      word after an answer, nothing otherwise. */
  function ExtraStep(m: Message, node: NodeId): bytes {
    if m.Answer? then Payload(m, node) else []
  }

  /** A message with the flag byte of its header. */
  datatype Sent = Sent(flag: byte, message: Message)

  function SendMessage(node: NodeId, b: Block, s: Sent): Crypted {
    var frame := SendFrame(b, s.flag, Command(s.message), Payload(s.message, node));
    Crypted(Crypt(frame.block, ExtraStep(s.message, node), Encrypt).block, frame.data)
  }

  /** The stream that a list of messages becomes. */
  function SendAll(node: NodeId, b: Block, all: seq<Sent>): Crypted
    decreases all
  {
    if all == [] then Crypted(b, [])
    else
      var first := SendMessage(node, b, all[0]);
      var others := SendAll(node, first.block, all[1..]);
      Crypted(others.block, first.data + others.data)
  }

  lemma {:induction false} SendOneMore(node: NodeId, b: Block, all: seq<Sent>, s: Sent)
    ensures var before := SendAll(node, b, all); var last := SendMessage(node, before.block, s);
            SendAll(node, b, all + [s]) == Crypted(last.block, before.data + last.data)
    decreases all
  {
    hide SendMessage;
    if all == [] {
      var first := SendMessage(node, b, s);
      assert SendAll(node, first.block, []) == Crypted(first.block, []);
      assert [s][1..] == [] && all + [s] == [s];
    } else {
      var first := SendMessage(node, b, all[0]);
      SendOneMore(node, first.block, all[1..], s);
      assert (all + [s])[1..] == all[1..] + [s];
      var before := SendAll(node, first.block, all[1..]);
      var last := SendMessage(node, before.block, s);
      assert first.data + (before.data + last.data) == (first.data + before.data) + last.data;
    }
  }

  /** By how much the client's `state` lags behind the server's after message m. */
  function Skew(m: Message, node: NodeId): byte {
    if m.Answer? then XorAll(Mask(node, m.id)) else 0
  }

  // The two ends

  datatype Reason = Oversize | NoRequest | Ended

  datatype Client = Client(
    enc: Block,
    dec: Block,
    flag: byte,                // g_flag
    busy: bool,                // ecm_busy: at most one ECM is out
    request: Option<CardId>,   // the only entry of extended_ecm_idx, send_idx 1
    closed: Option<Reason>)

  datatype Pending = Pending(idx: nat, id: CardId)

  datatype Server = Server(
    enc: Block,
    dec: Block,
    flag: byte,
    pending: seq<Pending>,     // extended_ecm_idx
    lastIdx: nat,              // server_ecm_idx, 16 bits
    closed: Option<Reason>)

  /** What the client makes of a message: the control word it stores, or the frame. */
  datatype Heard = HeardFrame(flag: byte, cmd: byte, payload: bytes) | HeardWord(flag: byte, cw: ControlWord)

  function U32(b: bytes): CardId
    requires |b| == 4
  {
    WordSizes();
    Value(b)
  }

  /** A request: ten bytes of caid, provider and share id, then sid, length and ECM. */
  function EcmPayload(caidAndProvider: bytes, id: CardId, sidAndLength: bytes, ecm: bytes): bytes
    requires |caidAndProvider| == 6 && |sidAndLength| == 3
  {
    caidAndProvider + BigEndian(4, id) + sidAndLength + ecm
  }

  predicate IsRequest(cmd: byte, payload: bytes) {
    cmd == MSG_CW_ECM && |payload| + 4 > CCMSG_HEADER_LEN && MAX_ECM_SIZE > |payload| + 4 - CCMSG_HEADER_LEN
  }

  /** The server takes an ECM request into its list; other frames leave the list alone. */
  function ServerHandles(s: Server, cmd: byte, payload: bytes): Server {
    if IsRequest(cmd, payload) then
      var idx := (s.lastIdx + 1) % 0x1_0000;
      s.(lastIdx := idx, pending := s.pending + [Pending(idx, U32(payload[6..10]))])
    else s
  }

  /** A card list message that takes the asked card away drops the pending request. */
  predicate Withdraws(cmd: byte, payload: bytes, id: CardId) {
    || (cmd == MSG_CARD_REMOVED && |payload| >= 4 && U32(payload[..4]) == id)
    || (cmd == MSG_SRV_DATA && |payload| == 0x48)
  }

  function ClientHandles(c: Client, node: NodeId, cmd: byte, payload: bytes): (Client, Heard) {
    if cmd == MSG_CW_ECM && |payload| >= 16 then
      if c.request.None? then (c.(closed := Some(NoRequest)), HeardFrame(c.flag, cmd, payload))
      else
        var cw := CwCrypt(payload[..16], node, c.request.value);
        (c.(dec := Crypt(c.dec, cw + payload[16..], Encrypt).block, busy := false, request := None),
         HeardWord(c.flag, cw))
    else if IsRefusal(cmd, payload) then
      (c.(busy := false, request := None), HeardFrame(c.flag, cmd, payload))
    else if c.request.Some? && Withdraws(cmd, payload, c.request.value) then
      (c.(request := None), HeardFrame(c.flag, cmd, payload))
    else (c, HeardFrame(c.flag, cmd, payload))
  }

  // The session

  datatype Session = Session(
    node: NodeId,              // the client's node id, known to both ends
    maxUp: nat,                // receive buffer sizes
    maxDown: nat,
    client: Client,
    server: Server,
    up: bytes,                 // bytes under way
    down: bytes,
    saidUp: seq<Sent>,         // what was ever sent
    saidDown: seq<Sent>,
    heardUp: seq<Heard>,       // what was ever received
    heardDown: seq<Heard>)

  datatype Step =
    | ClientSends(cmd: byte, payload: bytes)
    | ClientAsks(caidAndProvider: bytes, id: CardId, sidAndLength: bytes, ecm: bytes)
    | ServerSends(cmd: byte, payload: bytes)
    | ServerAnswers(idx: nat, cw: ControlWord)
    | ServerRefuses(idx: nat, cmd: byte, payload: bytes)
    | ClientReceives
    | ServerReceives

  /** Frames outside the request/answer exchange of the normal mode (EMMs also use ecm_busy; not
      modelled). */
  predicate Ordinary(cmd: byte, payload: bytes) {
    && cmd != MSG_CW_ECM && cmd != MSG_EMM_ACK && !IsRefusal(cmd, payload) && |payload| < 0x1_0000
    && !LeavesNormalMode(cmd, payload)
  }

  /** Only servers send server data. */
  predicate OrdinaryUp(cmd: byte, payload: bytes) {
    Ordinary(cmd, payload) && cmd != MSG_SRV_DATA
  }

  function FindPending(pending: seq<Pending>, idx: nat): (r: Option<nat>)
    ensures r.Some? ==> r.value < |pending| && pending[r.value].idx == idx
  {
    if pending == [] then None
    else if pending[0].idx == idx then Some(0)
    else
      var r := FindPending(pending[1..], idx);
      if r.None? then None else Some(r.value + 1)
  }

  function Remove<T>(xs: seq<T>, k: nat): seq<T>
    requires k < |xs|
  {
    xs[..k] + xs[k + 1..]
  }

  predicate Enabled(s: Session, step: Step) {
    match step
    case ClientSends(cmd, payload) => s.client.closed.None? && OrdinaryUp(cmd, payload)
    case ClientAsks(cp, id, sl, ecm) =>
      && s.client.closed.None? && !s.client.busy
      && |cp| == 6 && |sl| == 3 && 0 < |ecm| < MAX_ECM_SIZE
    case ServerSends(cmd, payload) => s.server.closed.None? && Ordinary(cmd, payload)
    case ServerAnswers(idx, cw) => s.server.closed.None? && FindPending(s.server.pending, idx).Some?
    case ServerRefuses(idx, cmd, payload) =>
      s.server.closed.None? && FindPending(s.server.pending, idx).Some? && IsRefusal(cmd, payload)
    case ClientReceives => s.client.closed.None? && !RecvFrame(s.client.dec, s.down, s.maxDown).Incomplete?
    case ServerReceives => s.server.closed.None? && !RecvFrame(s.server.dec, s.up, s.maxUp).Incomplete?
  }

  /** The client or the server puts one message on its stream. */
  function Up(s: Session, cmd: byte, payload: bytes): Session {
    var sent := Sent(s.client.flag, Note(cmd, payload));
    var r := SendMessage(s.node, s.client.enc, sent);
    s.(client := s.client.(enc := r.block), up := s.up + r.data, saidUp := s.saidUp + [sent])
  }

  function Down(s: Session, m: Message): Session {
    var sent := Sent(s.server.flag, m);
    var r := SendMessage(s.node, s.server.enc, sent);
    s.(server := s.server.(enc := r.block), down := s.down + r.data, saidDown := s.saidDown + [sent])
  }

  /** A reply takes its request out of the server's list. */
  function Reply(s: Session, k: nat, m: Message): Session
    requires k < |s.server.pending|
  {
    Down(s.(server := s.server.(pending := Remove(s.server.pending, k))), m)
  }

  function ClientReceive(s: Session): Session
    requires Enabled(s, ClientReceives)
  {
    var r := RecvFrame(s.client.dec, s.down, s.maxDown);
    if r.TooBig? || |r.payload| + 4 > CC_MAXMSGSIZE then s.(client := s.client.(closed := Some(Oversize)))
    else if EndsClient(r.cmd, r.payload) then s.(client := s.client.(closed := Some(Ended)))
    else
      var (client, heard) := ClientHandles(s.client.(dec := r.block, flag := r.flag), s.node, r.cmd, r.payload);
      s.(client := client, down := r.rest,
         heardDown := if client.closed.Some? then s.heardDown else s.heardDown + [heard])
  }

  function ServerReceive(s: Session): Session
    requires Enabled(s, ServerReceives)
  {
    var r := RecvFrame(s.server.dec, s.up, s.maxUp);
    if r.TooBig? || |r.payload| + 4 > CC_MAXMSGSIZE then s.(server := s.server.(closed := Some(Oversize)))
    else if EndsServer(r.cmd) then s.(server := s.server.(closed := Some(Ended)))
    else
      s.(server := ServerHandles(s.server.(dec := r.block, flag := r.flag), r.cmd, r.payload), up := r.rest,
         heardUp := s.heardUp + [HeardFrame(r.flag, r.cmd, r.payload)])
  }

  function Next(s: Session, step: Step): Session
    requires Enabled(s, step)
  {
    match step
    case ClientSends(cmd, payload) => Up(s, cmd, payload)
    case ClientAsks(cp, id, sl, ecm) =>
      var asked := Up(s, MSG_CW_ECM, EcmPayload(cp, id, sl, ecm));
      asked.(client := asked.client.(busy := true, request := Some(id)))
    case ServerSends(cmd, payload) => Down(s, Note(cmd, payload))
    case ServerAnswers(idx, cw) =>
      var k := FindPending(s.server.pending, idx).value;
      Reply(s, k, Answer(cw, s.server.pending[k].id))
    case ServerRefuses(idx, cmd, payload) =>
      var k := FindPending(s.server.pending, idx).value;
      Reply(s, k, Refusal(cmd, payload, s.server.pending[k].id))
    case ClientReceives => ClientReceive(s)
    case ServerReceives => ServerReceive(s)
  }

  /** Just after the handshake: each encrypting block equals its peer's decrypting one. */
  predicate Start(s: Session) {
    && s.client.enc == s.server.dec && s.server.enc == s.client.dec
    && !s.client.busy && s.client.request.None? && s.client.closed.None?
    && s.server.pending == [] && s.server.closed.None?
    && s.up == [] && s.down == [] && s.saidUp == [] && s.saidDown == []
    && s.heardUp == [] && s.heardDown == []
  }

  predicate Possible(s: Session, steps: seq<Step>)
    decreases steps
  {
    steps == [] || (Enabled(s, steps[0]) && Possible(Next(s, steps[0]), steps[1..]))
  }

  function Run(s: Session, steps: seq<Step>): Session
    requires Possible(s, steps)
    decreases steps
  {
    if steps == [] then s else Run(Next(s, steps[0]), steps[1..])
  }
}
