/** Runs of a network of servers that share cards, over any topology and any interleaving;
    messages may get lost, be repeated and overtake each other. */
module CardSpread {
  import opened Bytes
  import opened Cards
  import opened CardWire
  import opened CardList
  import opened CardNetwork

  type Link = (NodeId, NodeId)

  /** Cards a node has from a server, a node's share list, messages sent, and a record of the
      cards nodes have made themselves. */
  datatype Net = Net(held: map<Link, seq<Card>>, shares: map<NodeId, seq<Card>>, wire: seq<Message>, born: set<(NodeId, Card)>)

  /** What an update may find: a card of the node's own readers and services, or the k-th
      card its reader has from a server. */
  datatype Source = Own(card: Card) | Got(server: NodeId, k: nat)

  datatype Step =
    | Update(node: NodeId, mode: Minimize, sources: seq<Source>)
    | Send(node: NodeId, dst: NodeId, k: nat, id: Word, account: Account, cfg: Config, ext: bool, au: bool, lists: SidLists)
    | Receive(k: nat, reader: Reader)
    | Remove(node: NodeId, server: NodeId, id: Word)

  function HeldAt(net: Net, node: NodeId, server: NodeId): seq<Card> {
    if (node, server) in net.held then net.held[(node, server)] else []
  }

  function SharesOf(net: Net, node: NodeId): seq<Card> {
    if node in net.shares then net.shares[node] else []
  }

  /** create_card2 */
  predicate Newborn(c: Card) {
    c.id == 0 && c.nodes == [] && c.kind != CT_REMOTECARD
  }

  function OfferOf(net: Net, node: NodeId, s: Source): seq<Offer> {
    match s
    case Own(c) => if Newborn(c) then [Offer(c, true)] else []
    case Got(server, k) =>
      var cards := HeldAt(net, node, server);
      if k < |cards| then [Offer(cards[k], false)] else []
  }

  function OffersOf(net: Net, node: NodeId, sources: seq<Source>): seq<Offer> {
    if sources == [] then []
    else OffersOf(net, node, sources[..|sources| - 1]) + OfferOf(net, node, sources[|sources| - 1])
  }

  function BornOf(node: NodeId, sources: seq<Source>): set<(NodeId, Card)> {
    set i | 0 <= i < |sources| && sources[i].Own? && Newborn(sources[i].card) :: (node, sources[i].card)
  }

  function Updated(net: Net, node: NodeId, mode: Minimize, sources: seq<Source>): Net {
    net.(shares := net.shares[node := AddAll(mode, OffersOf(net, node, sources))], born := net.born + BornOf(node, sources))
  }

  /** send_card_to_client, for a message that fits its buffer */
  function Sent(net: Net, c: Card, node: NodeId, dst: NodeId, a: Account, cfg: Config, ext: bool, au: bool, l: SidLists): Net {
    var reshare: int := NewReshare(c, a, cfg);
    if Sized(l) && ValidFor(c, dst, a, cfg) && reshare >= 0
       && |Encode(c, Options(Some(node), ext, au), l)| <= CC_MAXMSGSIZE
    then net.(wire := net.wire + [Message(node, dst, ext, Written(c, node, ext, au, l, reshare))])
    else net
  }

  function ReceivedBy(net: Net, m: Message, r: Reader): Net {
    var cards := HeldAt(net, m.dst, m.src);
    match Received(m.body, m.ext, m.dst, r)
    case None => net
    case Some(c) => if Known(cards, c) then net else net.(held := net.held[(m.dst, m.src) := cards + [OneHopFurther(c)]])
  }

  /** A step that cannot be taken changes nothing. */
  function Apply(net: Net, s: Step): Net {
    match s
    case Update(node, mode, sources) => Updated(net, node, mode, sources)
    case Send(node, dst, k, id, a, cfg, ext, au, l) =>
      var shares := SharesOf(net, node);
      if k < |shares| then Sent(net, shares[k].(id := id), node, dst, a, cfg, ext, au, l) else net
    case Receive(k, r) => if k < |net.wire| then ReceivedBy(net, net.wire[k], r) else net
    case Remove(node, server, id) => net.(held := net.held[(node, server) := RemoveId(HeldAt(net, node, server), id)])
  }

  function Run(steps: seq<Step>): Net {
    if steps == [] then Net(map[], map[], [], {})
    else Apply(Run(steps[..|steps| - 1]), steps[|steps| - 1])
  }

  // Invariant

  /** Which of two further things are claimed of a card besides where it comes from: that its hop
      count is the length of its way, and that every hop has cost one reshare. */
  datatype Claims = Claims(hops: bool, budget: bool)

  /** What is known of where a card comes from: a node has made it, and the list of nodes is the way
      from there. */
  ghost predicate Traced(born: set<(NodeId, Card)>, nodes: seq<NodeId>, caid: Short, remoteId: Word, hop: int, reshare: int,
                         claims: Claims)
  {
    exists own, o :: (own, o) in born && FromOrigin(own, o, nodes, caid, remoteId, hop, reshare, claims)
  }

  ghost predicate FromOrigin(own: NodeId, o: Card, nodes: seq<NodeId>, caid: Short, remoteId: Word, hop: int, reshare: int,
                             claims: Claims)
  {
    && nodes != [] && nodes[0] == own && caid == o.caid && remoteId == o.remoteId
    && (claims.hops ==> hop == o.hop + |nodes|)
    && (claims.budget ==> reshare + |nodes| <= o.reshare + 1)
  }

  ghost predicate RemoteGood(born: set<(NodeId, Card)>, node: NodeId, c: Card, claims: Claims) {
    && c.kind == CT_REMOTECARD && NoDuplicates(c.nodes) && node !in c.nodes
    && Traced(born, c.nodes, c.caid, c.remoteId, c.hop, c.reshare, claims)
  }

  ghost predicate OwnGood(born: set<(NodeId, Card)>, node: NodeId, c: Card) {
    c.nodes == [] && c.kind != CT_REMOTECARD && exists o :: (node, o) in born && MadeFrom(c, o)
  }

  ghost predicate MadeFrom(c: Card, o: Card) {
    c.caid == o.caid && c.remoteId == o.remoteId && c.hop == o.hop && c.reshare == o.reshare && c.kind == o.kind
  }

  ghost predicate ShareGood(born: set<(NodeId, Card)>, node: NodeId, c: Card, claims: Claims) {
    OwnGood(born, node, c) || RemoteGood(born, node, c, claims)
  }

  ghost predicate HeldGood(born: set<(NodeId, Card)>, node: NodeId, server: NodeId, c: Card, claims: Claims) {
    RemoteGood(born, node, c, claims) && c.nodes[|c.nodes| - 1] == server
  }

  ghost predicate MessageGood(born: set<(NodeId, Card)>, m: Message, claims: Claims) {
    match Decode(m.body, m.ext)
    case None => false
    case Some(c) =>
      && c.kind == CT_REMOTECARD && NoDuplicates(c.nodes) && (m.dst in c.nodes ==> m.dst == m.src)
      && Traced(born, c.nodes, c.caid, c.remoteId, c.hop + 1, c.reshare, claims)
      && c.nodes[|c.nodes| - 1] == m.src
  }

  ghost predicate Good(net: Net, claims: Claims) {
    && (forall n, s, i :: (n, s) in net.held && 0 <= i < |net.held[(n, s)]| ==>
          HeldGood(net.born, n, s, net.held[(n, s)][i], claims))
    && (forall n, i :: n in net.shares && 0 <= i < |net.shares[n]| ==> ShareGood(net.born, n, net.shares[n][i], claims))
    && (forall i :: 0 <= i < |net.wire| ==> MessageGood(net.born, net.wire[i], claims))
  }

  /** An update does not merge cards that came through other nodes. */
  predicate KeepsTheWay(net: Net, s: Step) {
    s.Update? && s.mode == Caid ==> NoneMerged(OffersOf(net, s.node, s.sources))
  }

  /** Lists are not minimised by caid, which sets hop counts to 0. */
  predicate KeepsTheHops(s: Step) {
    s.Update? ==> s.mode != Caid
  }

  /** The settings used instead of a card's own reshare do not exceed it. */
  predicate WithinBudget(c: Card, a: Account, cfg: Config) {
    && (c.kind == CT_CARD_BY_SERVICE_USER ==> UserReshare(a, cfg) <= Budget(c))
    && (c.kind != CT_CARD_BY_SERVICE_USER && IgnoresReshare(a, cfg) ==> Limit(c, a, cfg) <= Budget(c))
  }

  predicate KeepsTheBudget(net: Net, s: Step) {
    s.Send? ==>
      var shares := SharesOf(net, s.node);
      s.k < |shares| ==> WithinBudget(shares[s.k].(id := s.id), s.account, s.cfg)
  }

  /** All steps of a run keep what is claimed. */
  ghost predicate Keeps(steps: seq<Step>, claims: Claims) {
    forall i :: 0 <= i < |steps| ==> StepKeeps(Run(steps[..i]), steps[i], claims)
  }

  predicate StepKeeps(net: Net, s: Step, claims: Claims) {
    KeepsTheWay(net, s) && (claims.hops ==> KeepsTheHops(s)) && (claims.budget ==> KeepsTheBudget(net, s))
  }

  // Sending keeps the invariant

  /** Every hop of a remote card costs one reshare. */
  function Budget(c: Card): int {
    c.reshare as int - if c.kind == CT_REMOTECARD then 1 else 0
  }

  /** Through all conversions to int8_t: a card that the exceptions do not concern is sent on
      exactly if there is something left of its own reshare, not more than 127, and of the limit;
      and then with the lower of the two. */
  lemma NewReshareExactly(c: Card, a: Account, cfg: Config)
    requires c.kind != CT_CARD_BY_SERVICE_USER && !IgnoresReshare(a, cfg)
    ensures var left, limit := NewReshare(c, a, cfg), Limit(c, a, cfg);
            && (left >= 0 <==> 0 <= Budget(c) <= 127 && limit >= 0)
            && (left >= 0 ==> left as int == if limit < Budget(c) then limit as int else Budget(c))
  {
    hide Limit, UserReshare;
    var own: int := ToInt8(c.reshare);
    assert own == if c.reshare < 128 then c.reshare as int else c.reshare as int - 256;
    if c.kind == CT_REMOTECARD && c.reshare == 128 {
      assert ToInt8(own - 1) == 127;
    }
  }

  /** x is within the account's own reshare and, if the card has a reader, within the reader's; for
      each of them -1 stands for the global one. */
  predicate WithinSettings(x: int, c: Card, a: Account, cfg: Config) {
    && x <= (if a.reshare == -1 then cfg.reshare else a.reshare)
    && (c.reader.Some? ==> x <= if c.rdrReshare == 255 then cfg.reshare else ToInt8(c.rdrReshare))
  }

  /** x is one of these settings. */
  predicate IsSetting(x: int, c: Card, a: Account, cfg: Config) {
    || x == (if a.reshare == -1 then cfg.reshare else a.reshare) as int
    || (c.reader.Some? && x == (if c.rdrReshare == 255 then cfg.reshare else ToInt8(c.rdrReshare)) as int)
  }

  lemma LimitIsLeast(c: Card, a: Account, cfg: Config)
    ensures IsSetting(Limit(c, a, cfg), c, a, cfg)
    ensures forall x: int :: x <= Limit(c, a, cfg) <==> WithinSettings(x, c, a, cfg)
  {
    assert ToInt8(c.rdrReshare) == -1 <==> c.rdrReshare == 255;
  }

  /** The reshare a card is sent with, unless it comes from a user service or the account ignores it, is
      the least of its budget, the account's setting and its reader's; it is sent at all exactly if
      none of the three is negative and the budget is not over 127. */
  lemma SentWithTheLeast(c: Card, a: Account, cfg: Config)
    requires c.kind != CT_CARD_BY_SERVICE_USER && !IgnoresReshare(a, cfg)
    ensures var left := NewReshare(c, a, cfg);
            && (left >= 0 <==> 0 <= Budget(c) <= 127 && WithinSettings(0, c, a, cfg))
            && (left >= 0 ==> left <= Budget(c) && WithinSettings(left, c, a, cfg)
                              && (left as int == Budget(c) || IsSetting(left, c, a, cfg)))
  {
    hide Limit, WithinSettings, IsSetting;
    NewReshareExactly(c, a, cfg);
    LimitIsLeast(c, a, cfg);
  }

  /** With an ignored reshare it is the least of the settings; with a user service, the account's. */
  lemma SentInstead(c: Card, a: Account, cfg: Config)
    ensures var left := NewReshare(c, a, cfg);
            && (c.kind == CT_CARD_BY_SERVICE_USER ==> left == if a.reshare == -1 then cfg.reshare else a.reshare)
            && (c.kind != CT_CARD_BY_SERVICE_USER && IgnoresReshare(a, cfg) ==>
                  WithinSettings(left, c, a, cfg) && IsSetting(left, c, a, cfg))
            && (IgnoresReshare(a, cfg) <==> a.ignoreReshare !in {-1, 0} || (a.ignoreReshare == -1 && cfg.ignoreReshare))
  {
    hide Limit, WithinSettings, IsSetting;
    LimitIsLeast(c, a, cfg);
  }

  /** A client is sent an ordinary card exactly if its filters pass it, it has not come through the
      client, it is not further than the account allows and something of the reshare is left; that
      a remote card with reshare 0 is kept back follows. */
  lemma SentExactlyWhen(c: Card, peer: NodeId, a: Account, cfg: Config)
    requires c.kind != CT_CARD_BY_SERVICE_USER && !IgnoresReshare(a, cfg)
    ensures ValidFor(c, peer, a, cfg) && NewReshare(c, a, cfg) >= 0
            <==> a.passes && peer !in c.nodes && c.hop <= a.maxHops && 0 <= Budget(c) <= 127 && WithinSettings(0, c, a, cfg)
  {
    hide Limit, WithinSettings, IsSetting, NewReshare;
    SentWithTheLeast(c, a, cfg);
  }

  /** Sending a card stays within its budget exactly when the settings used instead of it, for
      user services and for accounts that ignore the reshare, do not exceed it. */
  lemma BudgetKeptExactlyWhen(c: Card, a: Account, cfg: Config)
    requires NewReshare(c, a, cfg) >= 0
    ensures NewReshare(c, a, cfg) <= Budget(c) <==> WithinBudget(c, a, cfg)
  {
    hide Limit, UserReshare;
    if c.kind != CT_CARD_BY_SERVICE_USER && !IgnoresReshare(a, cfg) {
      NewReshareExactly(c, a, cfg);
    }
  }

  lemma WrittenIsEncoded(c: Card, own: NodeId, ext: bool, au: bool, l: SidLists, reshare: byte)
    requires Sized(l)
    ensures Written(c, own, ext, au, l, reshare) == Encode(c.(reshare := reshare), Options(Some(own), ext, au), l)
    ensures |Written(c, own, ext, au, l, reshare)| == |Encode(c, Options(Some(own), ext, au), l)|
  {
    hide Flatten, GoodBytes, BadBytes, Head, NodesSent, ProviderRecords;
    var o, d := Options(Some(own), ext, au), c.(reshare := reshare);
    SameRest(c, o, reshare);
    OneByteDiffers(c, o, l, reshare);
    var rest := Flatten(ProviderRecords(c, au)) + (GoodBytes(l, ext) + BadBytes(l, ext))
      + [|NodesSent(c, o)| % 256] + Flatten(NodesSent(c, o));
    assert Encode(c, o, l) == Head(c, o, l) + rest;
    assert Encode(d, o, l) == Head(d, o, l) + rest;
    assert (Head(c, o, l) + rest)[11 := reshare] == Head(c, o, l)[11 := reshare] + rest;
  }

  lemma SameRest(c: Card, o: Options, reshare: byte)
    ensures ProviderRecords(c, o.au) == ProviderRecords(c.(reshare := reshare), o.au)
    ensures NodesSent(c, o) == NodesSent(c.(reshare := reshare), o)
  {
    hide ProviderBytes;
  }

  lemma OneByteDiffers(c: Card, o: Options, l: SidLists, reshare: byte)
    requires Sized(l)
    ensures Head(c.(reshare := reshare), o, l) == Head(c, o, l)[11 := reshare]
  {
    hide BigEndian;
  }

  lemma BornTraced(born: set<(NodeId, Card)>, node: NodeId, o: Card, c: Card, reshare: int, claims: Claims)
    requires (node, o) in born && MadeFrom(c, o) && c.nodes == []
    requires claims.budget ==> reshare <= c.reshare
    ensures Traced(born, c.nodes + [node], c.caid, c.remoteId, c.hop + 1, reshare, claims)
  {
    assert FromOrigin(node, o, [node], c.caid, c.remoteId, c.hop + 1, reshare, claims);
  }

  lemma OneMoreHop(born: set<(NodeId, Card)>, node: NodeId, c: Card, reshare: int, claims: Claims)
    requires Traced(born, c.nodes, c.caid, c.remoteId, c.hop, c.reshare, claims)
    requires claims.budget ==> reshare <= c.reshare - 1
    ensures Traced(born, c.nodes + [node], c.caid, c.remoteId, c.hop + 1, reshare, claims)
  {
    var own, o :| (own, o) in born && FromOrigin(own, o, c.nodes, c.caid, c.remoteId, c.hop, c.reshare, claims);
    assert FromOrigin(own, o, c.nodes + [node], c.caid, c.remoteId, c.hop + 1, reshare, claims);
  }

  lemma SendGood(born: set<(NodeId, Card)>, c: Card, node: NodeId, dst: NodeId, a: Account, cfg: Config, ext: bool, au: bool,
                 l: SidLists, claims: Claims)
    requires Sized(l) && ValidFor(c, dst, a, cfg) && NewReshare(c, a, cfg) >= 0
    requires |Encode(c, Options(Some(node), ext, au), l)| <= CC_MAXMSGSIZE
    requires ShareGood(born, node, c, claims) && (claims.budget ==> WithinBudget(c, a, cfg))
    ensures MessageGood(born, Message(node, dst, ext, Written(c, node, ext, au, l, NewReshare(c, a, cfg) as int)), claims)
  {
    hide Encode, NewReshare, WithinBudget, Sized, Decode, Traced, CanonicalProviders, CanonicalGood, CanonicalBad;
    var reshare: int := NewReshare(c, a, cfg);
    var o, d := Options(Some(node), ext, au), c.(reshare := reshare);
    WrittenIsEncoded(c, node, ext, au, l, reshare);
    DecodeOfEncode(d, o, l);
    BudgetKeptExactlyWhen(c, a, cfg);
    if OwnGood(born, node, c) {
      var origin :| (node, origin) in born && MadeFrom(c, origin);
      BornTraced(born, node, origin, c, reshare, claims);
    } else {
      OneMoreHop(born, node, c, reshare, claims);
    }
  }

  // Receiving keeps the invariant

  lemma DecodedHop(b: bytes, ext: bool)
    ensures Decode(b, ext).Some? ==> |b| >= 21 && Decode(b, ext).value.hop == b[10]
  {
    hide Chunks, DecodedProviders, DecodedGood, DecodedBad, DecodedNodes, HeadWord, DecodedSid;
  }

  lemma ReceiveGood(born: set<(NodeId, Card)>, m: Message, r: Reader, claims: Claims)
    requires MessageGood(born, m, claims) && Received(m.body, m.ext, m.dst, r).Some?
    ensures HeldGood(born, m.dst, m.src, OneHopFurther(Received(m.body, m.ext, m.dst, r).value), claims)
  {
    hide Decode, DecodedSid, Traced;
    DecodedHop(m.body, m.ext);
    var c := Decode(m.body, m.ext).value;
    assert c.hop < 128;
  }

  lemma {:induction false} RemoveIdKeeps(cards: seq<Card>, id: Word)
    ensures forall c :: c in RemoveId(cards, id) <==> c in cards && c.id != id
  {
    if cards == [] {
    } else {
      RemoveIdKeeps(cards[..|cards| - 1], id);
      assert cards == cards[..|cards| - 1] + [cards[|cards| - 1]];
    }
  }

  // The share list keeps the invariant

  /** x is a copy of c, or c merged with others, and shows the same way to it; with hops, it also
      has its hop count, which cards without nodes always keep. */
  predicate SameWay(x: Card, c: Card, hops: bool) {
    && x.nodes == AddedNodes([], c.nodes) && x.kind == c.kind && x.caid == c.caid && x.remoteId == c.remoteId
    && x.reshare == c.reshare && (hops || c.nodes == [] ==> x.hop == c.hop)
  }

  predicate OneOf(x: Card, offers: seq<Offer>, hops: bool) {
    exists i :: 0 <= i < |offers| && SameWay(x, offers[i].card, hops)
  }

  /** Exactly the cards from elsewhere came through nodes. */
  predicate KnowsItsWay(c: Card) {
    c.kind == CT_REMOTECARD <==> c.nodes != []
  }

  /** y, maybe with groups and providers added. */
  predicate Grown(x: Card, y: Card) {
    x == y.(grp := x.grp, providers := x.providers)
  }

  lemma AddCardKeepsWays(mode: Minimize, list: seq<Card>, c: Card, free: bool)
    requires mode != Caid && (free ==> c.nodes == [])
    ensures forall x :: x in AddCard(mode, list, c, free) ==> SameWay(x, c, true) || exists y :: y in list && Grown(x, y)
  {
    hide Added, AddedNodes, Same, Find;
    var r, k := AddCard(mode, list, c, free), Find(mode, list, c);
    assert AddedNodes([], []) == [] by { NoNodes(); }
    forall i | 0 <= i < |r|
      ensures SameWay(r[i], c, true) || exists y :: y in list && Grown(r[i], y)
    {
      if k < |list| && list[k].hop <= c.hop {
        assert Grown(r[i], list[i]) && list[i] in list;
      } else if !SameWay(r[i], c, true) {
        assert r[i] in list && Grown(r[i], r[i]);
      }
    }
  }

  /** So does MINIMIZE_CAID for a card that is not merged, or has no nodes to forget. */
  lemma {:induction false} AddCardCaidKeepsWays(list: seq<Card>, c: Card, free: bool)
    requires (free ==> c.nodes == []) && (!free ==> c.nodes != []) && KnowsItsWay(c)
    requires c.nodes == [] || Find(Caid, list, c) == |list|
    requires forall y :: y in list ==> KnowsItsWay(y)
    ensures forall x :: x in AddCard(Caid, list, c, free) ==> SameWay(x, c, false) || exists y :: y in list && Grown(x, y)
  {
    hide Added, AddedNodes, AddCard, CountShared;
    var r, k := AddCard(Caid, list, c, free), Find(Caid, list, c);
    AddCardCaid(list, c, free);
    assert AddedNodes([], []) == [] by { NoNodes(); }
    forall i | 0 <= i < |r|
      ensures SameWay(r[i], c, false) || exists y :: y in list && Grown(r[i], y)
    {
      if i < |list| {
        assert list[i] in list;
        assert Grown(r[i], list[i]);
      }
    }
  }

  lemma {:induction false} NoNodes()
    ensures AddedNodes([], []) == []
  {
  }

  ghost predicate Offerable(offers: seq<Offer>) {
    forall i :: 0 <= i < |offers| ==> (offers[i].free <==> offers[i].card.nodes == []) && KnowsItsWay(offers[i].card)
  }

  lemma WayIsKnown(x: Card, offers: seq<Offer>, hops: bool)
    requires Offerable(offers) && OneOf(x, offers, hops)
    ensures KnowsItsWay(x)
  {
    hide AddedNodes;
    var i :| 0 <= i < |offers| && SameWay(x, offers[i].card, hops);
    CopiesKeepSomeNode(offers[i].card.nodes);
  }

  /** Every card of a list that is not minimised by caid, or in which nothing from elsewhere has been
      merged, leads where an offered card leads. */
  lemma {:induction false} ListKeepsWays(mode: Minimize, offers: seq<Offer>, hops: bool)
    requires Offerable(offers) && (mode == Caid ==> NoneMerged(offers)) && (hops ==> mode != Caid)
    ensures forall x :: x in AddAll(mode, offers) ==> OneOf(x, offers, hops)
  {
    hide AddCard, SameWay, Grown, KnowsItsWay, Find;
    if offers == [] {
    } else {
      var front, o := offers[..|offers| - 1], offers[|offers| - 1];
      assert forall i :: 0 <= i < |front| ==> front[i] == offers[i];
      ListKeepsWays(mode, front, hops);
      var list := AddAll(mode, front);
      if mode == Caid {
        forall y | y in list
          ensures KnowsItsWay(y)
        {
          WayIsKnown(y, front, hops);
        }
        AddCardCaidKeepsWays(list, o.card, o.free);
      } else {
        AddCardKeepsWays(mode, list, o.card, o.free);
      }
      forall x | x in AddAll(mode, offers)
        ensures OneOf(x, offers, hops)
      {
        LessIsKept(x, o.card, hops);
        if !SameWay(x, o.card, hops) {
          var y :| y in list && Grown(x, y);
          var i :| 0 <= i < |front| && SameWay(y, front[i].card, hops);
          assert SameWay(x, offers[i].card, hops) by { MergedSameWay(x, y, front[i].card, hops); }
        }
      }
    }
  }

  lemma LessIsKept(x: Card, c: Card, hops: bool)
    ensures SameWay(x, c, true) ==> SameWay(x, c, hops)
    ensures !hops && SameWay(x, c, false) ==> SameWay(x, c, hops)
  {
    hide AddedNodes;
  }

  lemma MergedSameWay(x: Card, y: Card, c: Card, hops: bool)
    requires Grown(x, y) && SameWay(y, c, hops)
    ensures SameWay(x, c, hops)
  {
    hide AddedNodes;
  }

  lemma {:induction false} CopyingKeepsNodes(nodes: seq<NodeId>)
    requires NoDuplicates(nodes)
    ensures AddedNodes([], nodes) == nodes
  {
    if nodes == [] {
    } else {
      var front := nodes[..|nodes| - 1];
      CopyingKeepsNodes(front);
      assert nodes == front + [nodes[|nodes| - 1]];
    }
  }

  lemma SameWayGood(born: set<(NodeId, Card)>, node: NodeId, x: Card, c: Card, claims: Claims)
    requires SameWay(x, c, claims.hops) && ShareGood(born, node, c, claims)
    ensures ShareGood(born, node, x, claims)
  {
    hide Traced, AddedNodes;
    if OwnGood(born, node, c) {
      NoNodes();
      var o :| (node, o) in born && MadeFrom(c, o);
      assert MadeFrom(x, o);
    } else {
      CopyingKeepsNodes(c.nodes);
      if !claims.hops {
        HopDoesNotMatter(born, c.nodes, c.caid, c.remoteId, c.hop, x.hop, c.reshare, claims);
      }
    }
  }

  lemma HopDoesNotMatter(born: set<(NodeId, Card)>, nodes: seq<NodeId>, caid: Short, remoteId: Word, hop: int, other: int,
                         reshare: int, claims: Claims)
    requires !claims.hops && Traced(born, nodes, caid, remoteId, hop, reshare, claims)
    ensures Traced(born, nodes, caid, remoteId, other, reshare, claims)
  {
    var own, o :| (own, o) in born && FromOrigin(own, o, nodes, caid, remoteId, hop, reshare, claims);
    assert FromOrigin(own, o, nodes, caid, remoteId, other, reshare, claims);
  }

  lemma MoreBorn(born: set<(NodeId, Card)>, more: set<(NodeId, Card)>, node: NodeId, c: Card, claims: Claims)
    requires born <= more && ShareGood(born, node, c, claims)
    ensures ShareGood(more, node, c, claims)
    ensures RemoteGood(born, node, c, claims) ==> RemoteGood(more, node, c, claims)
  {
    hide MadeFrom, FromOrigin;
    if OwnGood(born, node, c) {
      var o :| (node, o) in born && MadeFrom(c, o);
      assert (node, o) in more;
    }
    if RemoteGood(born, node, c, claims) {
      MoreTraced(born, more, c.nodes, c.caid, c.remoteId, c.hop, c.reshare, claims);
    }
  }

  lemma MoreTraced(born: set<(NodeId, Card)>, more: set<(NodeId, Card)>, nodes: seq<NodeId>, caid: Short, remoteId: Word,
                   hop: int, reshare: int, claims: Claims)
    requires born <= more && Traced(born, nodes, caid, remoteId, hop, reshare, claims)
    ensures Traced(more, nodes, caid, remoteId, hop, reshare, claims)
  {
    hide FromOrigin;
    var own, o :| (own, o) in born && FromOrigin(own, o, nodes, caid, remoteId, hop, reshare, claims);
    assert (own, o) in more;
  }

  ghost predicate OfferGood(born: set<(NodeId, Card)>, node: NodeId, o: Offer, claims: Claims) {
    ShareGood(born, node, o.card, claims) && (o.free <==> o.card.nodes == [])
  }

  lemma {:induction false} OffersGood(net: Net, node: NodeId, sources: seq<Source>, claims: Claims)
    requires Good(net, claims)
    ensures forall i :: 0 <= i < |OffersOf(net, node, sources)| ==>
              OfferGood(net.born + BornOf(node, sources), node, OffersOf(net, node, sources)[i], claims)
  {
    hide RemoteGood, MadeFrom;
    if sources == [] {
    } else {
      var front, s := sources[..|sources| - 1], sources[|sources| - 1];
      assert forall i :: 0 <= i < |front| ==> front[i] == sources[i];
      OffersGood(net, node, front, claims);
      var born, more := net.born + BornOf(node, front), net.born + BornOf(node, sources);
      assert born <= more;
      forall i | 0 <= i < |OffersOf(net, node, front)|
        ensures OfferGood(more, node, OffersOf(net, node, front)[i], claims)
      {
        MoreBorn(born, more, node, OffersOf(net, node, front)[i].card, claims);
      }
      LastOfferGood(net, node, sources, claims);
    }
  }

  lemma LastOfferGood(net: Net, node: NodeId, sources: seq<Source>, claims: Claims)
    requires Good(net, claims) && sources != []
    ensures forall o :: o in OfferOf(net, node, sources[|sources| - 1]) ==>
              OfferGood(net.born + BornOf(node, sources), node, o, claims)
  {
    hide RemoteGood;
    var s, more := sources[|sources| - 1], net.born + BornOf(node, sources);
    match s {
      case Own(c) =>
        if Newborn(c) {
          assert (node, c) in more;
          assert MadeFrom(c, c);
        }
      case Got(server, k) =>
        var cards := HeldAt(net, node, server);
        if k < |cards| {
          assert HeldGood(net.born, node, server, cards[k], claims);
          RemoteHasNodes(net.born, node, cards[k], claims);
          MoreBorn(net.born, more, node, cards[k], claims);
        }
    }
  }

  lemma RemoteHasNodes(born: set<(NodeId, Card)>, node: NodeId, c: Card, claims: Claims)
    requires RemoteGood(born, node, c, claims)
    ensures c.nodes != []
  {
  }

  // Every run

  lemma UpdateGood(net: Net, node: NodeId, mode: Minimize, sources: seq<Source>, claims: Claims)
    requires Good(net, claims) && KeepsTheWay(net, Update(node, mode, sources)) && (claims.hops ==> mode != Caid)
    ensures Good(Updated(net, node, mode, sources), claims)
  {
    hide RemoteGood, OwnGood, SameWay, AddAll, OffersOf, BornOf, Traced, Decode;
    var next, offers := Updated(net, node, mode, sources), OffersOf(net, node, sources);
    OffersGood(net, node, sources, claims);
    forall i | 0 <= i < |offers|
      ensures (offers[i].free <==> offers[i].card.nodes == []) && KnowsItsWay(offers[i].card)
    {
      assert OfferGood(next.born, node, offers[i], claims);
      ShareKnowsItsWay(next.born, node, offers[i].card, claims);
    }
    ListKeepsWays(mode, offers, claims.hops);
    forall x | x in AddAll(mode, offers)
      ensures ShareGood(next.born, node, x, claims)
    {
      var i :| 0 <= i < |offers| && SameWay(x, offers[i].card, claims.hops);
      assert OfferGood(next.born, node, offers[i], claims);
      SameWayGood(next.born, node, x, offers[i].card, claims);
    }
    RestGood(net, next, node, claims);
  }

  lemma ShareKnowsItsWay(born: set<(NodeId, Card)>, node: NodeId, c: Card, claims: Claims)
    requires ShareGood(born, node, c, claims)
    ensures KnowsItsWay(c)
  {
  }

  /** What a node has does not get worse when others make cards. */
  lemma RestGood(net: Net, next: Net, node: NodeId, claims: Claims)
    requires Good(net, claims) && next.held == net.held && next.wire == net.wire && net.born <= next.born
    requires next.shares.Keys == net.shares.Keys + {node}
    requires forall n :: n in net.shares && n != node ==> next.shares[n] == net.shares[n]
    requires forall x :: x in next.shares[node] ==> ShareGood(next.born, node, x, claims)
    ensures Good(next, claims)
  {
    hide RemoteGood, OwnGood, Traced, Decode;
    forall n, s, i | (n, s) in next.held && 0 <= i < |next.held[(n, s)]|
      ensures HeldGood(next.born, n, s, next.held[(n, s)][i], claims)
    {
      HeldStaysGood(net.born, next.born, n, s, net.held[(n, s)][i], claims);
    }
    forall n, i | n in next.shares && 0 <= i < |next.shares[n]|
      ensures ShareGood(next.born, n, next.shares[n][i], claims)
    {
      if n != node {
        MoreBorn(net.born, next.born, n, net.shares[n][i], claims);
      }
    }
    forall i | 0 <= i < |next.wire|
      ensures MessageGood(next.born, next.wire[i], claims)
    {
      MessageStaysGood(net.born, next.born, net.wire[i], claims);
    }
  }

  lemma HeldStaysGood(born: set<(NodeId, Card)>, more: set<(NodeId, Card)>, n: NodeId, s: NodeId, c: Card, claims: Claims)
    requires born <= more && HeldGood(born, n, s, c, claims)
    ensures HeldGood(more, n, s, c, claims)
  {
    MoreBorn(born, more, n, c, claims);
  }

  lemma MessageStaysGood(born: set<(NodeId, Card)>, more: set<(NodeId, Card)>, m: Message, claims: Claims)
    requires born <= more && MessageGood(born, m, claims)
    ensures MessageGood(more, m, claims)
  {
    hide Traced, Decode;
    var c := Decode(m.body, m.ext).value;
    MoreTraced(born, more, c.nodes, c.caid, c.remoteId, c.hop + 1, c.reshare, claims);
  }

  lemma HeldChangeGood(net: Net, node: NodeId, server: NodeId, cards: seq<Card>, claims: Claims)
    requires Good(net, claims) && forall c :: c in cards ==> HeldGood(net.born, node, server, c, claims)
    ensures Good(net.(held := net.held[(node, server) := cards]), claims)
  {
    hide HeldGood, ShareGood, MessageGood;
  }

  lemma HeldAtGood(net: Net, node: NodeId, server: NodeId, claims: Claims)
    requires Good(net, claims)
    ensures forall c :: c in HeldAt(net, node, server) ==> HeldGood(net.born, node, server, c, claims)
  {
    hide HeldGood;
  }

  lemma WireGood(net: Net, m: Message, claims: Claims)
    requires Good(net, claims) && MessageGood(net.born, m, claims)
    ensures Good(net.(wire := net.wire + [m]), claims)
  {
    hide HeldGood, ShareGood, MessageGood;
  }

  lemma NewIdGood(born: set<(NodeId, Card)>, node: NodeId, c: Card, id: Word, claims: Claims)
    requires ShareGood(born, node, c, claims)
    ensures ShareGood(born, node, c.(id := id), claims)
  {
    hide Traced;
    if OwnGood(born, node, c) {
      var o :| (node, o) in born && MadeFrom(c, o);
      assert MadeFrom(c.(id := id), o);
    }
  }

  lemma StepGood(net: Net, s: Step, claims: Claims)
    requires Good(net, claims) && StepKeeps(net, s, claims)
    ensures Good(Apply(net, s), claims)
  {
    hide Good, HeldGood, ShareGood, MessageGood, Encode, NewReshare, WithinBudget, Updated, Received, NoneMerged;
    match s {
      case Update(node, mode, sources) => UpdateGood(net, node, mode, sources, claims);
      case Send(node, dst, k, id, a, cfg, ext, au, l) =>
        if k < |SharesOf(net, node)| && Apply(net, s) != net {
          ShareIsGood(net, node, k, claims);
          NewIdGood(net.born, node, SharesOf(net, node)[k], id, claims);
          var c := SharesOf(net, node)[k].(id := id);
          SendGood(net.born, c, node, dst, a, cfg, ext, au, l, claims);
          WireGood(net, Message(node, dst, ext, Written(c, node, ext, au, l, NewReshare(c, a, cfg) as int)), claims);
        }
      case Receive(k, r) =>
        if k < |net.wire| && Apply(net, s) != net {
          var m := net.wire[k];
          MessageIsGood(net, k, claims);
          ReceiveGood(net.born, m, r, claims);
          HeldAtGood(net, m.dst, m.src, claims);
          var c := OneHopFurther(Received(m.body, m.ext, m.dst, r).value);
          HeldChangeGood(net, m.dst, m.src, HeldAt(net, m.dst, m.src) + [c], claims);
        }
      case Remove(node, server, id) =>
        HeldAtGood(net, node, server, claims);
        RemoveIdKeeps(HeldAt(net, node, server), id);
        HeldChangeGood(net, node, server, RemoveId(HeldAt(net, node, server), id), claims);
    }
  }

  lemma ShareIsGood(net: Net, node: NodeId, k: nat, claims: Claims)
    requires Good(net, claims) && k < |SharesOf(net, node)|
    ensures ShareGood(net.born, node, SharesOf(net, node)[k], claims)
  {
    hide ShareGood;
  }

  lemma MessageIsGood(net: Net, k: nat, claims: Claims)
    requires Good(net, claims) && k < |net.wire|
    ensures MessageGood(net.born, net.wire[k], claims)
  {
  }

  lemma {:induction false} RunGood(steps: seq<Step>, claims: Claims)
    requires Keeps(steps, claims)
    ensures Good(Run(steps), claims)
  {
    hide Apply, StepKeeps;
    if steps == [] {
    } else {
      var front := steps[..|steps| - 1];
      forall i | 0 <= i < |front|
        ensures StepKeeps(Run(front[..i]), front[i], claims)
      {
        assert front[..i] == steps[..i] && front[i] == steps[i];
      }
      RunGood(front, claims);
      StepGood(Run(front), steps[|steps| - 1], claims);
    }
  }

  /** Over every run in which no list merges cards that came through other nodes, a card a node holds
      has come to it along a path without cycles from the node that made it: no node holds a card
      that came through itself. If lists are not minimised by caid, the hop count is the length of
      the path plus the hops its maker gave it; if no settings exceed a card's reshare where they
      are used instead of it, every hop has cost one reshare. */
  lemma {:induction false} CardsTravelSimplePaths(steps: seq<Step>, claims: Claims, node: NodeId, server: NodeId, c: Card)
    requires Keeps(steps, claims) && c in HeldAt(Run(steps), node, server)
    ensures c.kind == CT_REMOTECARD && c.nodes != [] && c.nodes[|c.nodes| - 1] == server
    ensures NoDuplicates(c.nodes) && node !in c.nodes
    ensures exists o :: (c.nodes[0], o) in Run(steps).born && c.caid == o.caid && c.remoteId == o.remoteId
                        && (claims.hops ==> c.hop as int == o.hop + |c.nodes|)
                        && (claims.budget ==> c.reshare + |c.nodes| <= o.reshare + 1)
  {
    RunGood(steps, claims);
    HeldAtGood(Run(steps), node, server, claims);
    assert HeldGood(Run(steps).born, node, server, c, claims);
    var own, o :| (own, o) in Run(steps).born && FromOrigin(own, o, c.nodes, c.caid, c.remoteId, c.hop, c.reshare, claims);
  }

  /** With both: reshare and hops together never exceed what the maker gave by more than one, and a
      card gets no further than its maker allowed. */
  lemma {:induction false} ReshareBoundsTheWay(steps: seq<Step>, node: NodeId, server: NodeId, c: Card)
    requires Keeps(steps, Claims(true, true)) && c in HeldAt(Run(steps), node, server)
    ensures c.nodes != []
    ensures exists o :: (c.nodes[0], o) in Run(steps).born && c.caid == o.caid && c.remoteId == o.remoteId
                        && c.reshare + c.hop as int <= o.reshare + o.hop + 1 && |c.nodes| <= o.reshare + 1
  {
    hide Run, Keeps;
    CardsTravelSimplePaths(steps, Claims(true, true), node, server, c);
    var o :| (c.nodes[0], o) in Run(steps).born && c.caid == o.caid && c.remoteId == o.remoteId
      && c.hop as int == o.hop + |c.nodes| && c.reshare + |c.nodes| <= o.reshare + 1;
    assert c.reshare + c.hop as int <= o.reshare + o.hop + 1;
  }

  /** Message k of a run was sent by step n, for a card of the sender's list, to a client within whose
      hop limit and not through whom the card had come, and but for user services with no more
      reshare than the account and the card's reader are set to. */
  ghost predicate SentBy(steps: seq<Step>, n: nat, m: Message)
    requires n < |steps|
  {
    && steps[n].Send? && m.src == steps[n].node && m.dst == steps[n].dst
    && steps[n].k < |SharesOf(Run(steps[..n]), steps[n].node)|
    && var c := SharesOf(Run(steps[..n]), steps[n].node)[steps[n].k];
       && |m.body| > 11 && m.body[10] == c.hop && c.hop <= steps[n].account.maxHops && m.dst !in c.nodes
       && (c.kind == CT_CARD_BY_SERVICE_USER || WithinSettings(m.body[11] as int, c, steps[n].account, steps[n].cfg))
  }

  lemma SentKeepsSettings(net: Net, c: Card, node: NodeId, dst: NodeId, a: Account, cfg: Config, ext: bool, au: bool, l: SidLists)
    ensures var t := Sent(net, c, node, dst, a, cfg, ext, au, l);
            t.wire == net.wire
            || (|t.wire| == |net.wire| + 1 && t.wire[..|net.wire|] == net.wire
                && var m := t.wire[|net.wire|];
                   && m.src == node && m.dst == dst && |m.body| > 11 && m.body[10] == c.hop
                   && c.hop <= a.maxHops && dst !in c.nodes
                   && (c.kind == CT_CARD_BY_SERVICE_USER || WithinSettings(m.body[11] as int, c, a, cfg)))
  {
    hide Encode, NewReshare, WithinSettings, IsSetting, Head;
    var left := NewReshare(c, a, cfg);
    if c.kind != CT_CARD_BY_SERVICE_USER {
      if IgnoresReshare(a, cfg) {
        SentInstead(c, a, cfg);
      } else if left >= 0 {
        SentWithTheLeast(c, a, cfg);
      }
    }
    if Sized(l) {
      HeadInFront(c, Options(Some(node), ext, au), l);
    }
  }

  lemma HeadInFront(c: Card, o: Options, l: SidLists)
    requires Sized(l)
    ensures |Encode(c, o, l)| > 11 && Encode(c, o, l)[10] == c.hop
  {
    hide Flatten, ProviderRecords, GoodBytes, BadBytes, NodesSent;
    HeadBytes(c, o, l);
  }

  /** Over every run: no message carries more reshare than the account it was sent for and the reader
      its card came from are set to, user services apart, nor a card beyond the account's hop limit. */
  lemma {:induction false} MessagesKeepSettings(steps: seq<Step>, k: nat)
    requires k < |Run(steps).wire|
    ensures exists n :: 0 <= n < |steps| && SentBy(steps, n, Run(steps).wire[k])
  {
    hide Sent, WithinSettings, Updated, ReceivedBy;
    if steps == [] {
    } else {
      var last := |steps| - 1;
      var front, s := steps[..last], steps[last];
      var net := Run(front);
      if k < |net.wire| {
        MessagesKeepSettings(front, k);
        var n :| 0 <= n < |front| && SentBy(front, n, net.wire[k]);
        assert front[..n] == steps[..n] && front[n] == steps[n];
        StepKeepsWire(net, s, k);
        assert SentBy(steps, n, Run(steps).wire[k]);
      } else {
        StepAddsOne(net, s, k);
        assert SentBy(steps, last, Run(steps).wire[k]);
      }
    }
  }

  lemma StepKeepsWire(net: Net, s: Step, k: nat)
    requires k < |net.wire|
    ensures k < |Apply(net, s).wire| && Apply(net, s).wire[k] == net.wire[k]
  {
    hide Encode, NewReshare, Received, Known, Written, ValidFor;
  }

  lemma StepAddsOne(net: Net, s: Step, k: nat)
    requires |net.wire| <= k < |Apply(net, s).wire|
    ensures s.Send? && s.k < |SharesOf(net, s.node)|
    ensures var c, m := SharesOf(net, s.node)[s.k], Apply(net, s).wire[k];
            && m.src == s.node && m.dst == s.dst && |m.body| > 11 && m.body[10] == c.hop
            && c.hop <= s.account.maxHops && s.dst !in c.nodes
            && (c.kind == CT_CARD_BY_SERVICE_USER || WithinSettings(m.body[11] as int, c, s.account, s.cfg))
  {
    hide Encode, NewReshare, Received, Known, Written, ValidFor, Sent;
    if s.Send? && s.k < |SharesOf(net, s.node)| {
      SentKeepsSettings(net, SharesOf(net, s.node)[s.k].(id := s.id), s.node, s.dst, s.account, s.cfg, s.ext, s.au, s.lists);
    }
  }

  /** No two cards count as known to each other. */
  ghost predicate AllApart(cards: seq<Card>) {
    forall i, j :: 0 <= i < j < |cards| ==> cards[i].id != cards[j].id && !SameCard(cards[i], cards[j])
  }

  lemma {:induction false} RemovingKeepsApart(cards: seq<Card>, id: Word)
    requires AllApart(cards)
    ensures AllApart(RemoveId(cards, id))
  {
    hide SameCard;
    if cards == [] {
    } else {
      var front, c := cards[..|cards| - 1], cards[|cards| - 1];
      assert forall i :: 0 <= i < |front| ==> front[i] == cards[i];
      RemovingKeepsApart(front, id);
      RemoveIdKeeps(front, id);
      var r := RemoveId(front, id);
      forall i | 0 <= i < |r|
        ensures r[i].id != c.id && !SameCard(r[i], c)
      {
        assert r[i] in front;
        var j :| 0 <= j < |front| && front[j] == r[i];
        assert cards[j] == r[i];
      }
    }
  }

  lemma NewIsApart(cards: seq<Card>, c: Card)
    requires AllApart(cards) && !Known(cards, c)
    ensures AllApart(cards + [OneHopFurther(c)])
  {
    hide SameCard;
    var d := OneHopFurther(c);
    forall i | 0 <= i < |cards|
      ensures cards[i].id != d.id && !SameCard(cards[i], d)
    {
      FurtherIsSame(cards[i], c);
    }
  }

  lemma FurtherIsSame(x: Card, c: Card)
    ensures SameCard(x, OneHopFurther(c)) <==> SameCard(x, c)
  {
  }

  /** Over every run, with repeated messages: of the cards a node has from one server no two have the same
      share id, and no two are the same card. */
  lemma {:induction false} HeldOnce(steps: seq<Step>, node: NodeId, server: NodeId)
    ensures AllApart(HeldAt(Run(steps), node, server))
  {
    hide Sent, Updated, AllApart, Received, Known, OneHopFurther, RemoveId;
    if steps == [] {
      assert AllApart([]) by { hide *; NoneApart(); }
    } else {
      var front, s := steps[..|steps| - 1], steps[|steps| - 1];
      var net := Run(front);
      HeldOnce(front, node, server);
      match s {
        case Update(n, mode, sources) => UpdateKeepsHeld(net, n, mode, sources);
        case Send(n, dst, k, id, a, cfg, ext, au, l) =>
          if k < |SharesOf(net, n)| {
            SentKeepsHeld(net, SharesOf(net, n)[k].(id := id), n, dst, a, cfg, ext, au, l);
          }
        case Receive(k, r) =>
          if k < |net.wire| && (net.wire[k].dst, net.wire[k].src) == (node, server) {
            var m := net.wire[k];
            var c := Received(m.body, m.ext, m.dst, r);
            if c.Some? && !Known(HeldAt(net, node, server), c.value) {
              NewIsApart(HeldAt(net, node, server), c.value);
            }
          }
        case Remove(n, from, id) =>
          RemovingKeepsApart(HeldAt(net, node, server), id);
      }
    }
  }

  lemma NoneApart()
    ensures AllApart([])
  {
  }

  lemma UpdateKeepsHeld(net: Net, node: NodeId, mode: Minimize, sources: seq<Source>)
    ensures Updated(net, node, mode, sources).held == net.held
  {
  }

  lemma SentKeepsHeld(net: Net, c: Card, node: NodeId, dst: NodeId, a: Account, cfg: Config, ext: bool, au: bool, l: SidLists)
    ensures Sent(net, c, node, dst, a, cfg, ext, au, l).held == net.held
  {
    hide Encode, NewReshare, ValidFor, Written;
  }

  /** In a network of finitely many nodes no card can travel longer than once through each. */
  lemma {:induction false} PathsFitTheNetwork(steps: seq<Step>, node: NodeId, server: NodeId, c: Card, nodes: set<NodeId>)
    requires Keeps(steps, Claims(false, false)) && c in HeldAt(Run(steps), node, server)
    requires Elements(c.nodes) <= nodes && node in nodes
    ensures |c.nodes| < |nodes|
  {
    CardsTravelSimplePaths(steps, Claims(false, false), node, server, c);
    SubsetBound(c.nodes, nodes - {node});
  }

  // One hop, and what it may cost

  /** A node makes a card, sends it to another, which reads the message. */
  function OneHop(node: NodeId, dst: NodeId, c: Card, id: Word, a: Account, cfg: Config, au: bool, r: Reader): seq<Step> {
    [Update(node, LikeCccam, [Own(c)]), Send(node, dst, 0, id, a, cfg, false, au, SidLists([], [])), Receive(0, r)]
  }

  lemma RunOfThree(a: Step, b: Step, c: Step)
    ensures Run([a, b, c]) == Apply(Apply(Apply(Net(map[], map[], [], {}), a), b), c)
  {
    hide Apply;
    assert [a, b, c][..2] == [a, b] && [a, b][..1] == [a] && [a][..0] == [];
    assert Run([]) == Net(map[], map[], [], {});
    assert Run([a]) == Apply(Run([]), a);
    assert Run([a, b]) == Apply(Run([a]), b);
  }

  lemma ListedAlone(c: Card)
    ensures AddAll(LikeCccam, [Offer(c, true)]) == [c]
  {
    hide Same, Added, AddedNodes;
    assert [Offer(c, true)][..0] == [];
    assert AddAll(LikeCccam, []) == [];
    assert AddCard(LikeCccam, [], c, true) == [c];
  }

  lemma MadeAndListed(node: NodeId, c: Card)
    requires Newborn(c)
    ensures var net := Apply(Net(map[], map[], [], {}), Update(node, LikeCccam, [Own(c)]));
            SharesOf(net, node) == [c] && net.held == map[] && net.wire == []
  {
    hide AddAll, BornOf;
    var net := Net(map[], map[], [], {});
    assert [Own(c)][..0] == [];
    assert OffersOf(net, node, []) == [];
    assert OffersOf(net, node, [Own(c)]) == [Offer(c, true)];
    ListedAlone(c);
  }

  /** A card that has been written arrives as it was, one node and one hop further. */
  lemma Arrives(node: NodeId, dst: NodeId, c: Card, au: bool, reshare: byte, r: Reader)
    requires c.nodes == []
    requires |Encode(c, Options(Some(node), false, au), SidLists([], []))| <= CC_MAXMSGSIZE
    ensures var x := Received(Written(c, node, false, au, SidLists([], []), reshare), false, dst, r);
            && (x.Some? <==> c.caid != 0 && c.hop <= r.maxHops && reshare >= r.minDown && r.passes && dst != node)
            && (x.Some? ==> x.value.nodes == [node] && x.value.hop == c.hop && x.value.reshare == reshare
                            && x.value.caid == c.caid && x.value.remoteId == c.remoteId)
  {
    hide Encode, Decode, DecodedSid, CanonicalProviders;
    var o, l, d := Options(Some(node), false, au), SidLists([], []), c.(reshare := reshare);
    WrittenIsEncoded(c, node, false, au, l, reshare);
    DecodeOfEncode(d, o, l);
    HeadOfBody(d, o, l);
  }

  lemma HeadOfBody(d: Card, o: Options, l: SidLists)
    requires Sized(l)
    ensures var b := Encode(d, o, l);
            |b| >= 21 && DecodedSid(b[8..10]) == d.caid && b[10] == d.hop && b[11] == d.reshare
  {
    hide Flatten, GoodBytes, BadBytes, DecodedSid, Head, HeadWord;
    var b, h := Encode(d, o, l), Head(d, o, l);
    EncodeParts(d, o, l);
    assert b[..21] == h[..21];
    HeadArrives(d, o, l, b);
    assert b[..21][8..10] == b[8..10];
  }

  /** A card reaches the next node exactly when the client may have it, some reshare is left
      for it, and the reader's limits let it in; it carries what was left. */
  lemma OneHopExactlyWhen(node: NodeId, dst: NodeId, c: Card, id: Word, a: Account, cfg: Config, au: bool, r: Reader)
    requires Newborn(c)
    requires |Encode(c.(id := id), Options(Some(node), false, au), SidLists([], []))| <= CC_MAXMSGSIZE
    ensures var got, left := HeldAt(Run(OneHop(node, dst, c, id, a, cfg, au, r)), dst, node), NewReshare(c, a, cfg);
            && (got != [] <==> ValidFor(c, dst, a, cfg) && left >= 0 && c.caid != 0 && c.hop <= r.maxHops
                               && left >= r.minDown && r.passes && dst != node)
            && (got != [] ==> |got| == 1 && got[0].nodes == [node] && got[0].hop == c.hop + 1 && got[0].reshare == left
                              && got[0].caid == c.caid && got[0].remoteId == c.remoteId)
  {
    hide Encode, NewReshare, ValidFor, Received, Written, Updated;
    var net, d, l := Net(map[], map[], [], {}), c.(id := id), SidLists([], []);
    var steps := OneHop(node, dst, c, id, a, cfg, au, r);
    RunOfThree(steps[0], steps[1], steps[2]);
    MadeAndListed(node, c);
    IdIsNotAsked(c, id, dst, a, cfg);
    if ValidFor(c, dst, a, cfg) && NewReshare(c, a, cfg) >= 0 {
      Arrives(node, dst, d, au, NewReshare(c, a, cfg) as int, r);
    }
  }

  lemma IdIsNotAsked(c: Card, id: Word, dst: NodeId, a: Account, cfg: Config)
    ensures ValidFor(c.(id := id), dst, a, cfg) <==> ValidFor(c, dst, a, cfg)
    ensures NewReshare(c.(id := id), a, cfg) == NewReshare(c, a, cfg)
  {
  }

  /** A card made from a user service is sent with the account's reshare, whatever its own:
      it breaks the bound on its first hop. */
  lemma UserServiceOverspends(node: NodeId, dst: NodeId, c: Card, id: Word, r: Reader)
    requires Newborn(c) && c.kind == CT_CARD_BY_SERVICE_USER && c.caid != 0 && c.reshare == 0 && c.hop == 0 && c.providers == []
    requires node != dst && r.passes && r.maxHops >= 0 && r.minDown <= 5
    ensures var a, cfg := Account(10, 5, 0, true), Config(0, false);
            var got := HeldAt(Run(OneHop(node, dst, c, id, a, cfg, false, r)), dst, node);
            |got| == 1 && got[0].reshare + got[0].hop == 6 && c.reshare + c.hop + 1 == 1
  {
    hide Encode, Run;
    SmallMessage(c.(id := id), node);
    OneHopExactlyWhen(node, dst, c, id, Account(10, 5, 0, true), Config(0, false), false, r);
  }

  lemma SmallMessage(c: Card, node: NodeId)
    requires c.providers == [] && c.nodes == []
    ensures |Encode(c, Options(Some(node), false, false), SidLists([], []))| <= CC_MAXMSGSIZE
  {
    hide Head, Flatten;
    RecordLengths(c, Options(Some(node), false, false), SidLists([], []));
  }

  // What a merge forgets

  /** A card without providers and sids as its first receiver has it, before the hop is counted. */
  function Bare(c: Card, node: NodeId, reshare: byte, r: Reader): Card {
    Card(c.id, c.remoteId, c.caid, c.hop, reshare, Zeros(8), [], [], [], [node], CT_REMOTECARD, None, r.grp, r.reshare, false, 0,
         Some(r.number))
  }

  lemma BareArrives(node: NodeId, dst: NodeId, c: Card, reshare: byte, r: Reader)
    requires c.nodes == [] && c.providers == [] && node != dst
    requires c.caid != 0 && c.hop <= r.maxHops && reshare >= r.minDown && r.passes
    ensures Received(Written(c, node, false, false, SidLists([], []), reshare), false, dst, r) == Some(Bare(c, node, reshare, r))
  {
    hide Encode, Decode, DecodedSid;
    var o, l, d := Options(Some(node), false, false), SidLists([], []), c.(reshare := reshare);
    SmallMessage(c, node);
    WrittenIsEncoded(c, node, false, false, l, reshare);
    DecodeOfEncode(d, o, l);
    HeadOfBody(d, o, l);
    BareIsCanonical(d, node);
  }

  lemma BareIsCanonical(d: Card, node: NodeId)
    requires d.nodes == [] && d.providers == []
    ensures Canonical(d, Options(Some(node), false, false), SidLists([], [])) ==
              Card(d.id, d.remoteId, d.caid, d.hop, d.reshare, Zeros(8), [], [], [], [node], CT_REMOTECARD, None, {}, 0, false, 0, None)
  {
    assert CanonicalProviders(d, false) == [];
    assert NodesSent(d, Options(Some(node), false, false)) == [node];
  }

  /** The account, settings and reader used below. */
  const OPEN := Account(10, 5, 0, true)
  const PLAIN := Config(0, false)
  const LISTENER := Reader(1, 10, 0, {}, 5, true)

  predicate Plain(c: Card) {
    && Newborn(c) && c.kind == CT_LOCALCARD && c.caid != 0 && c.providers == [] && c.hop == 0 && c.reshare == 5 && c.reader.None?
    && c.grp == {}
  }

  /** One node sends two cards that differ in nothing but their origin; the other minimises by caid
      and sends back what it lists. */
  function ThereAndBack(a: NodeId, b: NodeId, c: Card, d: Card): seq<Step> {
    [Update(a, LikeCccam, [Own(c), Own(d)]), Send(a, b, 0, 1, OPEN, PLAIN, false, false, SidLists([], [])),
     Send(a, b, 1, 2, OPEN, PLAIN, false, false, SidLists([], [])), Receive(0, LISTENER), Receive(1, LISTENER),
     Update(b, Caid, [Got(a, 0), Got(a, 1)]), Send(b, a, 0, 3, OPEN, PLAIN, false, false, SidLists([], [])), Receive(2, LISTENER)]
  }

  function FirstMessage(a: NodeId, b: NodeId, c: Card, id: Word): Message {
    Message(a, b, false, Written(c.(id := id), a, false, false, SidLists([], []), 5))
  }

  /** What b has of a card of a's. */
  function Arrived(c: Card, a: NodeId, id: Word): Card {
    OneHopFurther(Bare(c.(id := id), a, 5, LISTENER))
  }

  lemma BothListed(a: NodeId, c: Card, d: Card)
    requires Plain(c) && Plain(d) && c.remoteId != d.remoteId
    ensures var net := Apply(Net(map[], map[], [], {}), Update(a, LikeCccam, [Own(c), Own(d)]));
            net == Net(map[], map[a := [c, d]], [], {(a, c), (a, d)})
  {
    hide AddedNodes, Added;
    var net, sources := Net(map[], map[], [], {}), [Own(c), Own(d)];
    var x, y := Offer(c, true), Offer(d, true);
    assert sources[..1] == [Own(c)] && [Own(c)][..0] == [];
    assert OffersOf(net, a, []) == [] && OffersOf(net, a, [Own(c)]) == [x] && OffersOf(net, a, sources) == [x, y];
    ListedAlone(c);
    assert [x, y][..1] == [x];
    assert !Same(LikeCccam, d, [c][0]);
    assert AddAll(LikeCccam, [x, y]) == [c, d];
    BornOfTwo(a, c, d);
  }

  lemma BornOfTwo(a: NodeId, c: Card, d: Card)
    requires Newborn(c) && Newborn(d)
    ensures BornOf(a, [Own(c), Own(d)]) == {(a, c), (a, d)}
  {
    var sources := [Own(c), Own(d)];
    assert sources[0] == Own(c) && sources[1] == Own(d);
  }

  lemma Sends(net: Net, node: NodeId, dst: NodeId, k: nat, id: Word, reshare: byte)
    requires k < |SharesOf(net, node)|
    requires var c := SharesOf(net, node)[k];
             c.nodes == [] && c.providers == [] && ValidFor(c, dst, OPEN, PLAIN) && NewReshare(c, OPEN, PLAIN) == reshare
    ensures var c := SharesOf(net, node)[k].(id := id);
            Apply(net, Send(node, dst, k, id, OPEN, PLAIN, false, false, SidLists([], [])))
            == net.(wire := net.wire + [Message(node, dst, false, Written(c, node, false, false, SidLists([], []), reshare))])
  {
    hide Encode, NewReshare, ValidFor, Written;
    var c := SharesOf(net, node)[k];
    IdIsNotAsked(c, id, dst, OPEN, PLAIN);
    SmallMessage(c.(id := id), node);
  }

  lemma PlainIsSent(c: Card, dst: NodeId)
    requires Plain(c)
    ensures ValidFor(c, dst, OPEN, PLAIN) && NewReshare(c, OPEN, PLAIN) == 5
  {
  }

  lemma Gets(net: Net, k: nat, c: Card, reshare: byte)
    requires k < |net.wire| && reshare <= 5
    requires var m := net.wire[k];
             m.src != m.dst && m == Message(m.src, m.dst, false, Written(c, m.src, false, false, SidLists([], []), reshare))
    requires c.nodes == [] && c.providers == [] && c.caid != 0 && c.hop <= 10
    requires var m := net.wire[k]; !Known(HeldAt(net, m.dst, m.src), Bare(c, m.src, reshare, LISTENER))
    ensures var m := net.wire[k];
            Apply(net, Receive(k, LISTENER)) == net.(held := net.held[(m.dst, m.src) :=
              HeldAt(net, m.dst, m.src) + [OneHopFurther(Bare(c, m.src, reshare, LISTENER))]])
  {
    hide Written, Received, Known;
    BareArrives(net.wire[k].src, net.wire[k].dst, c, reshare, LISTENER);
  }

  lemma {:induction false} TwoMerged(x: Card, y: Card)
    requires SameCard2(x, y) && x.providers == [] && y.providers == []
    ensures AddAll(Caid, [Offer(x, false), Offer(y, false)]) == [Merged(Entered(x, false), y)]
    ensures Merged(Entered(x, false), y).providers == []
  {
    hide AddedNodes;
    var offers, e := [Offer(x, false), Offer(y, false)], Entered(x, false);
    assert offers[..1] == [Offer(x, false)] && [Offer(x, false)][..0] == [];
    assert AddAll(Caid, []) == [];
    assert e.providers == [] && CountShared([], []) == 0;
    AddCardCaid([], x, false);
    assert AddAll(Caid, [Offer(x, false)]) == [e];
    assert SameForCaid(y, [e][0]);
    AddCardCaid([e], y, false);
  }

  lemma MergedIsSentBack(m: Card, dst: NodeId)
    requires m.nodes == [] && m.hop == 0 && m.reshare == 5 && m.kind == CT_REMOTECARD && m.reader == Some(1) && m.rdrReshare == 5
    ensures ValidFor(m, dst, OPEN, PLAIN) && NewReshare(m, OPEN, PLAIN) == 4
  {
  }

  function MergedAt(a: NodeId, c: Card, d: Card): Card {
    Merged(Entered(Arrived(c, a, 1), false), Arrived(d, a, 2))
  }

  /** The first five steps: b has both cards. */
  lemma BothArrive(a: NodeId, b: NodeId, c: Card, d: Card)
    requires a != b && Plain(c) && Plain(d) && c.caid == d.caid && c.remoteId != d.remoteId
    ensures var s := ThereAndBack(a, b, c, d);
            var net := Apply(Apply(Apply(Apply(Apply(Net(map[], map[], [], {}), s[0]), s[1]), s[2]), s[3]), s[4]);
            && HeldAt(net, b, a) == [Arrived(c, a, 1), Arrived(d, a, 2)] && HeldAt(net, a, b) == []
            && |net.wire| == 2 && net.born == {(a, c), (a, d)}
  {
    hide Written, NewReshare, ValidFor, Apply, Known;
    var s := ThereAndBack(a, b, c, d);
    var m1, m2 := FirstMessage(a, b, c, 1), FirstMessage(a, b, d, 2);
    BothListed(a, c, d);
    var n1 := Net(map[], map[a := [c, d]], [], {(a, c), (a, d)});
    PlainIsSent(c, b);
    PlainIsSent(d, b);
    Sends(n1, a, b, 0, 1, 5);
    var n2 := n1.(wire := [m1]);
    assert n1.wire + [m1] == [m1];
    Sends(n2, a, b, 1, 2, 5);
    var n3 := n2.(wire := [m1, m2]);
    assert [m1] + [m2] == [m1, m2];
    assert !Known([], Bare(c.(id := 1), a, 5, LISTENER)) by { NoneKnown(Bare(c.(id := 1), a, 5, LISTENER)); }
    Gets(n3, 0, c.(id := 1), 5);
    var n4 := Apply(n3, s[3]);
    assert [] + [Arrived(c, a, 1)] == [Arrived(c, a, 1)];
    assert HeldAt(n4, b, a) == [Arrived(c, a, 1)] && HeldAt(n4, a, b) == [];
    assert !Known([Arrived(c, a, 1)], Bare(d.(id := 2), a, 5, LISTENER)) by {
      OtherIsNotKnown(Arrived(c, a, 1), Bare(d.(id := 2), a, 5, LISTENER));
    }
    Gets(n4, 1, d.(id := 2), 5);
    assert [Arrived(c, a, 1)] + [Arrived(d, a, 2)] == [Arrived(c, a, 1), Arrived(d, a, 2)];
  }

  lemma NoneKnown(c: Card)
    ensures !Known([], c)
  {
  }

  lemma OtherIsNotKnown(x: Card, c: Card)
    requires x.id != c.id && x.remoteId != c.remoteId
    ensures !Known([x], c)
  {
  }

  /** Then b merges them ... */
  lemma MergedIsListed(net: Net, a: NodeId, b: NodeId, c: Card, d: Card)
    requires Plain(c) && Plain(d) && c.caid == d.caid && HeldAt(net, b, a) == [Arrived(c, a, 1), Arrived(d, a, 2)]
    ensures var t := Apply(net, Update(b, Caid, [Got(a, 0), Got(a, 1)]));
            SharesOf(t, b) == [MergedAt(a, c, d)] && t.wire == net.wire && t.held == net.held && t.born == net.born
    ensures MergedAt(a, c, d).providers == []
  {
    hide Merged, Entered, AddAll, Written;
    var x, y, sources := Arrived(c, a, 1), Arrived(d, a, 2), [Got(a, 0), Got(a, 1)];
    assert sources[..1] == [Got(a, 0)] && [Got(a, 0)][..0] == [];
    assert OffersOf(net, b, []) == [] && OffersOf(net, b, [Got(a, 0)]) == [Offer(x, false)];
    assert OffersOf(net, b, sources) == [Offer(x, false), Offer(y, false)];
    assert BornOf(b, sources) == {};
    TwoMerged(x, y);
  }

  /** ... and sends the result, and a takes it. */
  lemma MergedComesBack(net: Net, a: NodeId, b: NodeId, m: Card)
    requires a != b && SharesOf(net, b) == [m] && HeldAt(net, a, b) == [] && |net.wire| == 2
    requires m.nodes == [] && m.providers == [] && m.hop == 0 && m.reshare == 5 && m.kind == CT_REMOTECARD && m.caid != 0
    requires m.reader == Some(1) && m.rdrReshare == 5
    ensures var t := Apply(Apply(net, Send(b, a, 0, 3, OPEN, PLAIN, false, false, SidLists([], []))), Receive(2, LISTENER));
            t.born == net.born && HeldAt(t, a, b) == [OneHopFurther(Bare(m.(id := 3), b, 4, LISTENER))]
  {
    hide Written, NewReshare, ValidFor, Known, Received, Apply;
    MergedIsSentBack(m, a);
    Sends(net, b, a, 0, 3, 4);
    var sent := Apply(net, Send(b, a, 0, 3, OPEN, PLAIN, false, false, SidLists([], [])));
    assert sent.wire[2] == Message(b, a, false, Written(m.(id := 3), b, false, false, SidLists([], []), 4));
    NoneKnown(Bare(m.(id := 3), b, 4, LISTENER));
    Gets(sent, 2, m.(id := 3), 4);
  }

  lemma MergedLooks(a: NodeId, c: Card, d: Card)
    requires Plain(c)
    ensures var m := MergedAt(a, c, d);
            && m.nodes == [] && m.hop == 0 && m.reshare == 5 && m.kind == CT_REMOTECARD && m.reader == Some(1)
            && m.rdrReshare == 5 && m.caid == c.caid && m.remoteId == c.remoteId
  {
    hide Added, AddedNodes;
  }

  /** After a merge by caid a node can hold a card that came through itself: it made the card, b got
      it, forgot where it came from, and offered it back as its own. No node but a ever made one. */
  lemma {:induction false} MergingForgetsTheWay(a: NodeId, b: NodeId, c: Card, d: Card)
    requires a != b && Plain(c) && Plain(d) && c.caid == d.caid && c.remoteId != d.remoteId
    ensures var net := Run(ThereAndBack(a, b, c, d));
            && |HeldAt(net, a, b)| == 1
            && (var x := HeldAt(net, a, b)[0]; x.nodes == [b] && x.caid == c.caid && x.remoteId == c.remoteId)
            && net.born == {(a, c), (a, d)}
  {
    hide Apply, MergedAt, Arrived;
    var s := ThereAndBack(a, b, c, d);
    RunOfEight(s);
    BothArrive(a, b, c, d);
    var net := Apply(Apply(Apply(Apply(Apply(Net(map[], map[], [], {}), s[0]), s[1]), s[2]), s[3]), s[4]);
    MergedIsListed(net, a, b, c, d);
    MergedLooks(a, c, d);
    MergedComesBack(Apply(net, s[5]), a, b, MergedAt(a, c, d));
  }

  lemma {:induction false} RunOfEight(s: seq<Step>)
    requires |s| == 8
    ensures Run(s) == Apply(Apply(Apply(Apply(Apply(Apply(Apply(Apply(Net(map[], map[], [], {}), s[0]), s[1]), s[2]), s[3]), s[4]),
                                              s[5]), s[6]), s[7])
  {
    hide Apply;
    RunOfPrefix(s, 8);
    RunOfPrefix(s, 7);
    RunOfPrefix(s, 6);
    RunOfPrefix(s, 5);
    RunOfPrefix(s, 4);
    RunOfPrefix(s, 3);
    RunOfPrefix(s, 2);
    RunOfPrefix(s, 1);
    assert s[..8] == s && s[..0] == [];
    assert Run([]) == Net(map[], map[], [], {});
  }

  lemma {:induction false} RunOfPrefix(s: seq<Step>, n: nat)
    requires 0 < n <= |s|
    ensures Run(s[..n]) == Apply(Run(s[..n - 1]), s[n - 1])
  {
    hide Apply;
    assert s[..n][..n - 1] == s[..n - 1] && s[..n][n - 1] == s[n - 1];
  }
}
