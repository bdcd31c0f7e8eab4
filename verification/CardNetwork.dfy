/** Cards spreading through a network of servers: sending (card_valid_for_client,
    send_card_to_client), receiving (MSG_NEW_CARD, MSG_CARD_REMOVED) and the share list in
    between (oscam/module-cccshare.c:293-351, 546-576, 1500-1541,
    oscam/module-cccam.c:2606-2660, 2950-3085). */
module CardNetwork {
  import opened Bytes
  import opened Cards
  import opened CardWire
  import opened CardList

  // Sending

  /** The settings of a client's account, and what the filters by group, caid, ident and
      service say of the card at hand. */
  datatype Account = Account(maxHops: int, reshare: Int8, ignoreReshare: Int8, passes: bool)

  /** Global settings */
  datatype Config = Config(reshare: Int8, ignoreReshare: bool)

  predicate IgnoresReshare(a: Account, cfg: Config) {
    if a.ignoreReshare == -1 then cfg.ignoreReshare else a.ignoreReshare != 0
  }

  /** card_valid_for_client for the client that is node peer */
  predicate ValidFor(c: Card, peer: NodeId, a: Account, cfg: Config) {
    && a.passes
    && (c.kind == CT_REMOTECARD && !IgnoresReshare(a, cfg) ==> c.reshare != 0)
    && c.hop <= a.maxHops
    && peer !in c.nodes
  }

  function UserReshare(a: Account, cfg: Config): Int8 {
    if a.reshare == -1 then cfg.reshare else a.reshare
  }

  /** The lower of the reader's and the user's limit */
  function Limit(c: Card, a: Account, cfg: Config): Int8 {
    var usr := UserReshare(a, cfg);
    var own := if c.reader.Some? then ToInt8(c.rdrReshare) else usr;
    var rdr := if own == -1 then cfg.reshare else own;
    if rdr < usr then rdr else usr
  }

  function NewReshare(c: Card, a: Account, cfg: Config): Int8 {
    var limit := Limit(c, a, cfg);
    if c.kind == CT_CARD_BY_SERVICE_USER then UserReshare(a, cfg)
    else if IgnoresReshare(a, cfg) then limit
    else
      var own := ToInt8(c.reshare);
      var left := if c.kind == CT_REMOTECARD then ToInt8(own - 1) else own;
      if left > limit then limit else left
  }

  /** A MSG_NEW_CARD or MSG_NEW_CARD_SIDINFO on its way */
  datatype Message = Message(src: NodeId, dst: NodeId, ext: bool, body: bytes)

  /** The message for a card: write_card with the own node id, then the new reshare. */
  function Written(c: Card, own: NodeId, ext: bool, au: bool, l: SidLists, reshare: byte): bytes
    requires Sized(l)
  {
    Encode(c, Options(Some(own), ext, au), l)[11 := reshare]
  }

  // Receiving

  /** A reader's settings, and what its caid and ident filters say of the card at hand. */
  datatype Reader = Reader(number: nat, maxHops: Int8, minDown: Int8, grp: set<nat>, reshare: byte, passes: bool)

  /** MSG_NEW_CARD up to the question whether the card is known already */
  function Received(body: bytes, ext: bool, own: NodeId, r: Reader): Option<Card> {
    if |body| < 12 then None
    else
      var hop, reshare: int := body[10], body[11];
      if DecodedSid(body[8..10]) == 0 || hop >= r.maxHops + 1 || reshare < r.minDown || !r.passes then None
      else
        match Decode(body, ext)
        case None => None
        case Some(c) =>
          if own in c.nodes then None
          else Some(c.(reader := Some(r.number), grp := r.grp, rdrReshare := r.reshare))
  }

  predicate Known(cards: seq<Card>, c: Card) {
    exists i :: 0 <= i < |cards| && (cards[i].id == c.id || SameCard(cards[i], c))
  }

  function OneHopFurther(c: Card): Card {
    c.(hop := Add8(c.hop, 1))
  }

  /** cc_card_removed */
  function RemoveId(cards: seq<Card>, id: Word): seq<Card> {
    if cards == [] then []
    else
      var front, c := RemoveId(cards[..|cards| - 1], id), cards[|cards| - 1];
      if c.id == id then front else front + [c]
  }
}
