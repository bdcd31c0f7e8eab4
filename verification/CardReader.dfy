/** The message handlers that keep a reader's cards, with their loops over the card list, and
    the server's search for a peer in a card's nodes (oscam/module-cccam.c:2606-2660, 2950-3085,
    oscam/module-cccshare.c:568-577). */
module CardReader {
  import opened Bytes
  import opened Cards
  import opened CardWire
  import opened CardBuffers
  import opened CardNetwork

  /** The loops that compare a node id with every entry of a card's list. */
  method HasNode(nodes: seq<NodeId>, node: NodeId) returns (found: bool)
    ensures found <==> node in nodes
  {
    for i := 0 to |nodes|
      invariant node !in nodes[..i]
    {
      if nodes[i] == node {
        return true;
      }
    }
    found := false;
  }

  /** card_valid_for_client */
  method CheckValid(c: Card, peer: NodeId, a: Account, cfg: Config) returns (valid: bool)
    ensures valid <==> ValidFor(c, peer, a, cfg)
  {
    if !a.passes {
      return false;
    }
    if c.kind == CT_REMOTECARD && !IgnoresReshare(a, cfg) && c.reshare == 0 {
      return false;
    }
    if a.maxHops < c.hop {
      return false;
    }
    var visited := HasNode(c.nodes, peer);
    valid := !visited;
  }

  /** The reshare send_card_to_client puts into a message */
  method ReshareFor(c: Card, a: Account, cfg: Config) returns (newReshare: Int8)
    ensures newReshare == NewReshare(c, a, cfg)
  {
    var usrReshare := a.reshare;
    if usrReshare == -1 {
      usrReshare := cfg.reshare;
    }
    var readerReshare: Int8 := usrReshare;
    if c.reader.Some? {
      readerReshare := ToInt8(c.rdrReshare);
    }
    if readerReshare == -1 {
      readerReshare := cfg.reshare;
    }
    var reshare := if readerReshare < usrReshare then readerReshare else usrReshare;
    if c.kind == CT_CARD_BY_SERVICE_USER {
      return usrReshare;
    }
    if IgnoresReshare(a, cfg) {
      return reshare;
    }
    newReshare := ToInt8(c.reshare);
    if c.kind == CT_REMOTECARD {
      var own: int := newReshare;
      newReshare := ToInt8(own - 1);
    }
    if newReshare > reshare {
      newReshare := reshare;
    }
  }

  /** A reader's connection to one server */
  class Connection {
    const own: NodeId
    var cards: seq<Card>

    constructor (own: NodeId)
      ensures this.own == own && cards == []
    {
      this.own := own;
      cards := [];
    }

    method Knows(c: Card) returns (known: bool)
      ensures known <==> Known(cards, c)
    {
      hide SameCard;
      for i := 0 to |cards|
        invariant forall j :: 0 <= j < i ==> cards[j].id != c.id && !SameCard(cards[j], c)
      {
        if cards[i].id == c.id || SameCard(cards[i], c) {
          return true;
        }
      }
      known := false;
    }

    /** MSG_NEW_CARD and MSG_NEW_CARD_SIDINFO */
    method NewCard(body: bytes, ext: bool, r: Reader) returns (added: bool)
      modifies this
      ensures var c := Received(body, ext, own, r);
              && (added <==> c.Some? && !Known(old(cards), c.value))
              && cards == if added then old(cards) + [OneHopFurther(c.value)] else old(cards)
    {
      hide Decode, DecodedSid, SameCard, Known;
      if |body| < 12 {
        return false;
      }
      var caid := DecodedSid(body[8..10]);
      var hop, reshare: int := body[10], body[11];
      if caid == 0 || hop >= r.maxHops + 1 || reshare < r.minDown || !r.passes {
        return false;
      }
      var card := ReadCard(body, ext);
      if card.None? {
        return false;
      }
      var c := card.value.(reader := Some(r.number), grp := r.grp, rdrReshare := r.reshare);
      var visited := HasNode(c.nodes, own);
      if visited {
        return false;
      }
      var known := Knows(c);
      if !known {
        cards := cards + [OneHopFurther(c)];
      }
      added := !known;
    }

    /** MSG_CARD_REMOVED */
    method CardRemoved(id: Word)
      modifies this
      ensures cards == RemoveId(old(cards), id)
      ensures forall c :: c in cards <==> c in old(cards) && c.id != id
    {
      var rest := [];
      for i := 0 to |cards|
        invariant rest == RemoveId(cards[..i], id)
        invariant forall c :: c in rest <==> c in cards[..i] && c.id != id
      {
        assert cards[..i + 1][..i] == cards[..i];
        assert cards[..i + 1] == cards[..i] + [cards[i]];
        if cards[i].id != id {
          rest := rest + [cards[i]];
        }
      }
      assert cards[..|cards|] == cards;
      cards := rest;
    }
  }
}
