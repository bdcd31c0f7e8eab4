/** Runs of the share list: updates, logins and what one client has been told
    (oscam/module-cccshare.c:1500-1566). */
module ShareRuns {
  import opened Bytes
  import opened Cards
  import opened CardList
  import opened CardNetwork
  import opened ShareList

  function IdsIn(list: seq<Card>): set<Word> {
    set i | 0 <= i < |list| :: list[i].id
  }

  function NewOnes(partners: seq<Option<Card>>): (picked: seq<bool>)
    ensures |picked| == |partners|
  {
    seq(|partners|, i requires 0 <= i < |partners| => partners[i].None?)
  }

  function Everything(list: seq<Card>): (picked: seq<bool>)
    ensures |picked| == |list|
  {
    seq(|list|, _ => true)
  }

  function Takes(client: Client, others: Card -> bool): Card -> bool {
    c => client.Wants(c) || others(c)
  }

  function Wants(client: Client): Card -> bool {
    c => client.Wants(c)
  }

  /** send_remove_card_to_clients: the ids whose removal the client is told */
  function Withdrawn(left: seq<Card>, client: Client): set<Word> {
    set i | 0 <= i < |left| && left[i].id != 0 && client.valid(left[i]) :: left[i].id
  }

  /** The server, and the ids a client has been sent and not been told to forget. */
  datatype Server = Server(book: Book, shown: set<Word>)

  /** An update finds these cards, some of which other clients accept; our client logs in,
      or another one does. */
  datatype Event =
    | Update(cards: seq<Card>, now: int, others: Card -> bool)
    | Login
    | OtherLogin(takes: Card -> bool)

  /** Tail of update_card_list: remove first, then add. */
  function Updated(s: Server, client: Client, cards: seq<Card>, now: int, others: Card -> bool): Server {
    var d := Report(s.book.list, cards, now);
    var picked := NewOnes(d.partners);
    var b := Send(d.list, picked, Takes(client, others), s.book.handed);
    Server(b, s.shown - Withdrawn(d.left, client) + Told(d.list, b.list, picked, Wants(client)))
  }

  /** cc_srv_report_cards */
  function LoggedIn(s: Server, client: Client): Server {
    var list, picked := s.book.list, Everything(s.book.list);
    var b := Send(list, picked, Wants(client), s.book.handed);
    Server(b, Told(list, b.list, picked, Wants(client)))
  }

  function OtherLoggedIn(s: Server, takes: Card -> bool): Server {
    s.(book := Send(s.book.list, Everything(s.book.list), takes, s.book.handed))
  }

  function Step(s: Server, client: Client, e: Event): Server {
    match e
    case Update(cards, now, others) => Updated(s, client, cards, now, others)
    case Login => LoggedIn(s, client)
    case OtherLogin(takes) => OtherLoggedIn(s, takes)
  }

  /** What a server that has just started goes through. */
  function Run(client: Client, events: seq<Event>): Server {
    if events == [] then Server(Book([], 0), {})
    else Step(Run(client, events[..|events| - 1]), client, events[|events| - 1])
  }

  /** Updates bring cards that have no share id yet. */
  ghost predicate Proper(events: seq<Event>) {
    forall i :: 0 <= i < |events| && events[i].Update? ==> NoIds(events[i].cards)
  }

  // Ids

  /** Sending changes nothing but ids, and hands out increasing new ones. */
  lemma {:induction false} SendIds(list: seq<Card>, picked: seq<bool>, takes: Card -> bool, handed: nat)
    requires |picked| == |list|
    requires Unwrapped(Send(list, picked, takes, handed).handed)
    requires forall i :: 0 <= i < |list| ==> list[i].id < FIRST_ID + handed
    ensures var b := Send(list, picked, takes, handed);
            && handed <= b.handed
            && (forall i :: 0 <= i < |list| ==> Sent(list[i], b.list[i], picked[i] && takes(list[i]), handed, b.handed))
            && (forall i, j :: 0 <= i < j < |list| && b.list[j].id >= FIRST_ID + handed ==> b.list[i].id < b.list[j].id)
  {
    if list == [] {
    } else {
      var front, c := list[..|list| - 1], list[|list| - 1];
      var b := Send(front, picked[..|list| - 1], takes, handed);
      SendHandsOut(front, picked[..|list| - 1], takes, handed);
      SendIds(front, picked[..|list| - 1], takes, handed);
      if picked[|list| - 1] && takes(c) && c.id == 0 {
        ShareIdUnwrapped(b.handed);
      }
    }
  }

  ghost predicate Sent(c: Card, r: Card, taken: bool, handed: nat, after: nat) {
    if taken && c.id == 0 then r == c.(id := r.id) && FIRST_ID + handed <= r.id < FIRST_ID + after else r == c
  }

  lemma {:induction false} SendHandsOut(list: seq<Card>, picked: seq<bool>, takes: Card -> bool, handed: nat)
    requires |picked| == |list|
    ensures handed <= Send(list, picked, takes, handed).handed
  {
    if list == [] {
    } else {
      SendHandsOut(list[..|list| - 1], picked[..|list| - 1], takes, handed);
    }
  }

  lemma {:induction false} SendKeepsIdsGood(list: seq<Card>, picked: seq<bool>, takes: Card -> bool, handed: nat)
    requires |picked| == |list| && IdsGood(Book(list, handed))
    requires Unwrapped(Send(list, picked, takes, handed).handed)
    ensures IdsGood(Send(list, picked, takes, handed))
  {
    hide Send;
    var b := Send(list, picked, takes, handed);
    SendIds(list, picked, takes, handed);
    forall i, j | 0 <= i < j < |list| && b.list[i].id == b.list[j].id
      ensures b.list[i].id == 0
    {
      assert list[i].id == list[j].id ==> list[i].id == 0;
      assert Sent(list[i], b.list[i], picked[i] && takes(list[i]), handed, b.handed);
      assert Sent(list[j], b.list[j], picked[j] && takes(list[j]), handed, b.handed);
    }
  }

  ghost predicate CountsGood(list: seq<Card>) {
    forall id :: id != 0 ==> IdCount(list, id) <= 1
  }

  lemma {:induction false} DistinctMeansOnce(list: seq<Card>)
    ensures CountsGood(list) <==> forall i, j :: 0 <= i < j < |list| && list[i].id == list[j].id ==> list[i].id == 0
  {
    if list == [] {
    } else {
      var front, c := list[..|list| - 1], list[|list| - 1];
      DistinctMeansOnce(front);
      CountsSnoc(front, c);
      assert list == front + [c];
      if CountsGood(list) {
        forall i, j | 0 <= i < j < |list| && list[i].id == list[j].id
          ensures list[i].id == 0
        {
          if j < |front| {
            assert front[i].id == front[j].id;
          } else {
            assert front[i].id == c.id;
          }
        }
      }
      if forall i, j :: 0 <= i < j < |list| && list[i].id == list[j].id ==> list[i].id == 0 {
        forall i, j | 0 <= i < j < |front| && front[i].id == front[j].id
          ensures front[i].id == 0
        {
          assert list[i].id == list[j].id;
        }
        forall i | 0 <= i < |front| && front[i].id == c.id
          ensures c.id == 0
        {
          assert list[i].id == list[|front|].id;
        }
      }
    }
  }

  lemma CountsSnoc(front: seq<Card>, c: Card)
    ensures CountsGood(front + [c]) <==> CountsGood(front) && (c.id == 0 || forall i :: 0 <= i < |front| ==> front[i].id != c.id)
  {
    hide IdCount;
    forall id
      ensures IdCount(front + [c], id) == IdCount(front, id) + if c.id == id then 1 else 0
    {
      IdCountSnoc(front, c, id);
    }
    IdCountMember(front, c.id);
    if CountsGood(front + [c]) {
      forall id | id != 0
        ensures IdCount(front, id) <= 1
      {
        assert IdCount(front + [c], id) <= 1;
      }
      assert c.id != 0 ==> IdCount(front + [c], c.id) <= 1;
    }
  }

  lemma IsListed(list: seq<Card>, id: Word)
    requires id in IdsIn(list)
    ensures exists i :: 0 <= i < |list| && list[i].id == id
  {
  }

  lemma {:induction false} IdsInCount(list: seq<Card>)
    ensures forall id: Word :: id in IdsIn(list) <==> IdCount(list, id) > 0
    ensures forall i :: 0 <= i < |list| ==> list[i].id in IdsIn(list)
  {
    forall id: Word
      ensures id in IdsIn(list) <==> IdCount(list, id) > 0
    {
      IdCountMember(list, id);
      if IdCount(list, id) > 0 {
        var i :| 0 <= i < |list| && list[i].id == id;
        assert list[i].id in IdsIn(list);
      }
    }
  }

  /** After matching, ids are still distinct, and none of a left over card is in the list. */
  lemma {:induction false} ReportKeepsIdsGood(prior: seq<Card>, cards: seq<Card>, now: int, handed: nat)
    requires IdsGood(Book(prior, handed)) && NoIds(cards)
    ensures var d := Report(prior, cards, now);
            && IdsGood(Book(d.list, handed))
            && (forall id :: id in IdsIn(prior) && id != 0 <==> id != 0 && (id in IdsIn(d.list) || id in IdsIn(d.left)))
            && (forall i :: 0 <= i < |d.left| && d.left[i].id != 0 ==> d.left[i].id !in IdsIn(d.list))
            && CountsGood(d.left)
  {
    hide Report, IdCount, IdsIn;
    var d := Report(prior, cards, now);
    DistinctMeansOnce(prior);
    forall id: int | id != 0
      ensures IdCount(d.list, id) + IdCount(d.left, id) == IdCount(prior, id)
    {
      IdsAreConserved(prior, cards, now, id);
    }
    IdsInCount(prior);
    IdsInCount(d.list);
    IdsInCount(d.left);
    DistinctMeansOnce(d.list);
    forall i | 0 <= i < |d.list| && d.list[i].id != 0
      ensures FIRST_ID <= d.list[i].id < FIRST_ID + handed
    {
      assert d.list[i].id in IdsIn(prior);
      IsListed(prior, d.list[i].id);
    }
  }

  lemma {:induction false} RunIsGood(client: Client, events: seq<Event>)
    requires Proper(events) && Unwrapped(Run(client, events).book.handed)
    ensures IdsGood(Run(client, events).book)
  {
    hide IdsGood;
    if events == [] {
      assert IdsGood(Book([], 0)) by { EmptyBook(); }
    } else {
      var front, e := events[..|events| - 1], events[|events| - 1];
      assert forall i :: 0 <= i < |front| ==> front[i] == events[i];
      HandedGrows(Run(client, front), client, e);
      RunIsGood(client, front);
      StepKeepsIdsGood(Run(client, front), client, e);
    }
  }

  lemma EmptyBook()
    ensures IdsGood(Book([], 0))
  {
  }

  lemma HandedGrows(s: Server, client: Client, e: Event)
    ensures s.book.handed <= Step(s, client, e).book.handed
  {
    hide Send, Report;
    match e
    case Update(cards, now, others) =>
      var d := Report(s.book.list, cards, now);
      SendHandsOut(d.list, NewOnes(d.partners), Takes(client, others), s.book.handed);
    case Login => SendHandsOut(s.book.list, Everything(s.book.list), Wants(client), s.book.handed);
    case OtherLogin(takes) => SendHandsOut(s.book.list, Everything(s.book.list), takes, s.book.handed);
  }

  lemma StepKeepsIdsGood(s: Server, client: Client, e: Event)
    requires IdsGood(s.book) && (e.Update? ==> NoIds(e.cards))
    requires Unwrapped(Step(s, client, e).book.handed)
    ensures IdsGood(Step(s, client, e).book)
  {
    hide Send, Report, IdsGood;
    match e
    case Update(cards, now, others) =>
      var d := Report(s.book.list, cards, now);
      ReportKeepsIdsGood(s.book.list, cards, now, s.book.handed);
      SendKeepsIdsGood(d.list, NewOnes(d.partners), Takes(client, others), s.book.handed);
    case Login => SendKeepsIdsGood(s.book.list, Everything(s.book.list), Wants(client), s.book.handed);
    case OtherLogin(takes) => SendKeepsIdsGood(s.book.list, Everything(s.book.list), takes, s.book.handed);
  }

  // What the client knows

  /** Every id the client knows of names a card of the list. */
  ghost predicate UpToDate(s: Server) {
    forall id :: id in s.shown ==> id != 0 && id in IdsIn(s.book.list)
  }

  lemma {:induction false} SendIdsIn(list: seq<Card>, picked: seq<bool>, takes: Card -> bool, handed: nat)
    requires |picked| == |list| && IdsGood(Book(list, handed))
    requires Unwrapped(Send(list, picked, takes, handed).handed)
    ensures var b := Send(list, picked, takes, handed);
            forall id :: 0 < id < FIRST_ID + handed ==> (id in IdsIn(b.list) <==> id in IdsIn(list))
  {
    hide Send;
    var b := Send(list, picked, takes, handed);
    SendIds(list, picked, takes, handed);
    forall id | 0 < id < FIRST_ID + handed
      ensures id in IdsIn(b.list) <==> id in IdsIn(list)
    {
      if id in IdsIn(list) {
        var i :| 0 <= i < |list| && list[i].id == id;
        assert Sent(list[i], b.list[i], picked[i] && takes(list[i]), handed, b.handed);
        assert b.list[i].id == id;
      }
      if id in IdsIn(b.list) {
        var i :| 0 <= i < |list| && b.list[i].id == id;
        assert Sent(list[i], b.list[i], picked[i] && takes(list[i]), handed, b.handed);
      }
    }
  }

  lemma {:induction false} ToldIsListed(list: seq<Card>, picked: seq<bool>, takes: Card -> bool, wants: Card -> bool, handed: nat)
    requires |picked| == |list| && IdsGood(Book(list, handed))
    requires Unwrapped(Send(list, picked, takes, handed).handed)
    requires forall c :: wants(c) ==> takes(c)
    ensures var b := Send(list, picked, takes, handed);
            forall id :: id in Told(list, b.list, picked, wants) ==> id != 0 && id in IdsIn(b.list)
  {
    hide Send;
    var b := Send(list, picked, takes, handed);
    SendIds(list, picked, takes, handed);
    forall i | 0 <= i < |list| && picked[i] && wants(list[i])
      ensures b.list[i].id != 0
    {
      assert Sent(list[i], b.list[i], picked[i] && takes(list[i]), handed, b.handed);
    }
  }

  /** Every one of these cards that the client knows of is, as last reported, valid for it. */
  ghost predicate TellsOf(s: Server, client: Client, left: seq<Card>) {
    forall i :: 0 <= i < |left| && left[i].id in s.shown ==> client.valid(left[i])
  }

  /** An update leaves the client with ids that name nothing exactly when it knew of a left
      over card that, as last reported, is no longer valid for it: its removal is not told. */
  lemma {:induction false} UpToDateExactlyWhen(s: Server, client: Client, cards: seq<Card>, now: int, others: Card -> bool)
    requires IdsGood(s.book) && NoIds(cards) && UpToDate(s)
    requires Unwrapped(Updated(s, client, cards, now, others).book.handed)
    ensures UpToDate(Updated(s, client, cards, now, others)) <==>
              TellsOf(s, client, Report(s.book.list, cards, now).left)
  {
    hide Send, Report, IdsGood, Told;
    var d := Report(s.book.list, cards, now);
    var picked := NewOnes(d.partners);
    var b := Send(d.list, picked, Takes(client, others), s.book.handed);
    var t := Updated(s, client, cards, now, others);
    ReportKeepsIdsGood(s.book.list, cards, now, s.book.handed);
    SendIdsIn(d.list, picked, Takes(client, others), s.book.handed);
    ToldIsListed(d.list, picked, Takes(client, others), Wants(client), s.book.handed);
    ShownBelow(s);
    if forall i :: 0 <= i < |d.left| && d.left[i].id in s.shown ==> client.valid(d.left[i]) {
      forall id | id in t.shown
        ensures id != 0 && id in IdsIn(b.list)
      {
        if id in s.shown && id !in Withdrawn(d.left, client) {
          assert id in IdsIn(d.list) || id in IdsIn(d.left);
        }
      }
    }
    if UpToDate(t) {
      forall i | 0 <= i < |d.left| && d.left[i].id in s.shown
        ensures client.valid(d.left[i])
      {
        var id := d.left[i].id;
        assert id !in IdsIn(b.list);
        assert id in Withdrawn(d.left, client);
        var j :| 0 <= j < |d.left| && d.left[j].id == id && client.valid(d.left[j]);
        DistinctMeansOnce(d.left);
        assert i == j;
      }
    }
  }

  lemma ShownBelow(s: Server)
    requires IdsGood(s.book) && UpToDate(s)
    ensures forall id :: id in s.shown ==> 0 < id < FIRST_ID + s.book.handed
  {
  }

  /** The client's filter does not look at share ids. */
  ghost predicate IdBlind(client: Client) {
    forall c: Card, id: Word :: client.valid(c.(id := id)) <==> client.valid(c)
  }

  /** Every card the client knows of is valid for it. */
  ghost predicate ShownValid(s: Server, client: Client) {
    forall i :: 0 <= i < |s.book.list| && s.book.list[i].id in s.shown ==> client.valid(s.book.list[i])
  }

  lemma IdDoesNotMatter(client: Client, c: Card, r: Card)
    requires IdBlind(client) && r == c.(id := r.id)
    ensures client.valid(c) <==> client.valid(r)
  {
    assert client.valid(c.(id := r.id)) <==> client.valid(c);
  }

  /** An id a client has just been told belongs to a card that was valid for it. */
  lemma ToldIsValid(client: Client, b: Book, list: seq<Card>, picked: seq<bool>, i: nat)
    requires |picked| == |list| == |b.list| && i < |list| && IdsGood(b) && b.list[i].id != 0
    requires b.list[i].id in Told(list, b.list, picked, Wants(client))
    ensures picked[i] && client.Wants(list[i])
  {
    var j :| 0 <= j < |list| && picked[j] && client.Wants(list[j]) && b.list[j].id == b.list[i].id;
    assert i == j;
  }

  lemma {:induction false} SendKeepsValid(client: Client, list: seq<Card>, picked: seq<bool>, takes: Card -> bool, handed: nat,
                                          shown: set<Word>)
    requires |picked| == |list| && IdsGood(Book(list, handed)) && IdBlind(client)
    requires Unwrapped(Send(list, picked, takes, handed).handed)
    requires forall c :: client.Wants(c) ==> takes(c)
    requires forall i :: 0 <= i < |list| && list[i].id in shown ==> client.valid(list[i])
    requires forall id :: id in shown ==> 0 < id < FIRST_ID + handed
    ensures var b := Send(list, picked, takes, handed);
            ShownValid(Server(b, shown + Told(list, b.list, picked, Wants(client))), client)
  {
    hide Send, IdBlind, IdsGood, Told, Wants, IdsIn;
    var b := Send(list, picked, takes, handed);
    var told := Told(list, b.list, picked, Wants(client));
    SendIds(list, picked, takes, handed) by { IdsBelow(Book(list, handed)); }
    SendKeepsIdsGood(list, picked, takes, handed);
    ToldIsListed(list, picked, takes, Wants(client), handed) by { WantsIs(client); }
    forall i | 0 <= i < |list| && b.list[i].id in shown + told
      ensures client.valid(b.list[i])
    {
      assert Sent(list[i], b.list[i], picked[i] && takes(list[i]), handed, b.handed);
      IdDoesNotMatter(client, list[i], b.list[i]);
      if b.list[i].id in told {
        ToldIsValid(client, b, list, picked, i);
      }
    }
  }

  lemma WantsIs(client: Client)
    ensures forall c :: Wants(client)(c) == client.Wants(c)
  {
  }

  lemma IdsBelow(b: Book)
    requires IdsGood(b)
    ensures forall i :: 0 <= i < |b.list| ==> b.list[i].id < FIRST_ID + b.handed
  {
  }

  /** Every card the client knows of that an update finds again is still valid for it as found. */
  ghost predicate FoundStaysValid(s: Server, client: Client, cards: seq<Card>, now: int) {
    var d := Report(s.book.list, cards, now);
    forall i :: 0 <= i < |cards| && IsKnown(s, client, d.partners[i]) ==> client.valid(d.list[i])
  }

  predicate IsKnown(s: Server, client: Client, partner: Option<Card>) {
    partner.Some? && partner.value.id in s.shown && client.valid(partner.value)
  }

  /** What holds of a client that is told of everything it has to forget. */
  ghost predicate InTouch(s: Server, client: Client) {
    IdsGood(s.book) && UpToDate(s) && ShownValid(s, client)
  }

  lemma UpdateStaysInTouch(s: Server, client: Client, cards: seq<Card>, now: int, others: Card -> bool)
    requires InTouch(s, client) && IdBlind(client) && NoIds(cards) && FoundStaysValid(s, client, cards, now)
    requires Unwrapped(Updated(s, client, cards, now, others).book.handed)
    ensures InTouch(Updated(s, client, cards, now, others), client)
  {
    hide Send, Report, IdsGood, Told, IdBlind, Matches, Inherit, Wants, Takes;
    var d := Report(s.book.list, cards, now);
    var picked := NewOnes(d.partners);
    ReportKeepsIdsGood(s.book.list, cards, now, s.book.handed);
    MatchedOrNew(s.book.list, cards, now);
    ShownBelow(s);
    LeftIsValid(s, client, d);
    UpToDateExactlyWhen(s, client, cards, now, others);
    SendKeepsIdsGood(d.list, picked, Takes(client, others), s.book.handed);
    forall i | 0 <= i < |d.list| && d.list[i].id in s.shown
      ensures client.valid(d.list[i])
    {
      KeptIsValid(s, client, cards, now, i);
    }
    var left := s.shown - Withdrawn(d.left, client);
    assert forall c :: client.Wants(c) ==> Takes(client, others)(c) by { TakesIs(client, others); }
    SendKeepsValid(client, d.list, picked, Takes(client, others), s.book.handed, left);
  }

  lemma TakesIs(client: Client, others: Card -> bool)
    ensures forall c :: client.Wants(c) ==> Takes(client, others)(c)
  {
  }

  lemma LeftIsValid(s: Server, client: Client, d: Diff)
    requires ShownValid(s, client) && forall o :: o in d.left ==> o in s.book.list
    ensures forall i :: 0 <= i < |d.left| && d.left[i].id in s.shown ==> client.valid(d.left[i])
  {
    forall i | 0 <= i < |d.left| && d.left[i].id in s.shown
      ensures client.valid(d.left[i])
    {
      assert d.left[i] in d.left;
    }
  }

  lemma {:induction false} KeptIsValid(s: Server, client: Client, cards: seq<Card>, now: int, i: nat)
    requires InTouch(s, client) && NoIds(cards) && FoundStaysValid(s, client, cards, now) && i < |cards|
    requires var d := Report(s.book.list, cards, now); d.list[i].id in s.shown
    ensures client.valid(Report(s.book.list, cards, now).list[i])
  {
    hide Report, IdsGood;
    var d := Report(s.book.list, cards, now);
    MatchedOrNew(s.book.list, cards, now);
    ShownBelow(s);
    assert WellMatched(cards[i], now, d.list[i], d.partners[i]);
    PartnersAreOld(s.book.list, cards, now);
  }

  lemma {:induction false} PartnersAreOld(prior: seq<Card>, cards: seq<Card>, now: int)
    ensures var d := Report(prior, cards, now);
            forall i :: 0 <= i < |cards| && d.partners[i].Some? ==> d.partners[i].value in prior
  {
    hide Matches, Without;
    if cards == [] {
    } else {
      PartnersAreOld(prior, cards[..|cards| - 1], now);
      MatchedOrNew(prior, cards[..|cards| - 1], now);
    }
  }

  lemma LoginStaysInTouch(s: Server, client: Client)
    requires InTouch(s, client) && IdBlind(client)
    requires Unwrapped(LoggedIn(s, client).book.handed)
    ensures InTouch(LoggedIn(s, client), client)
  {
    hide Send, IdsGood, Told, IdBlind, Wants;
    var list, picked := s.book.list, Everything(s.book.list);
    SendKeepsIdsGood(list, picked, Wants(client), s.book.handed);
    ToldIsListed(list, picked, Wants(client), Wants(client), s.book.handed);
    assert forall c :: client.Wants(c) ==> Wants(client)(c) by { WantsIs(client); }
    SendKeepsValid(client, list, picked, Wants(client), s.book.handed, {});
    var t := LoggedIn(s, client);
    assert {} + t.shown == t.shown;
  }

  lemma OtherStaysInTouch(s: Server, client: Client, takes: Card -> bool)
    requires InTouch(s, client) && IdBlind(client)
    requires Unwrapped(OtherLoggedIn(s, takes).book.handed)
    ensures InTouch(OtherLoggedIn(s, takes), client)
  {
    hide Send, IdsGood, IdBlind;
    var list, picked := s.book.list, Everything(s.book.list);
    var b := Send(list, picked, takes, s.book.handed);
    SendKeepsIdsGood(list, picked, takes, s.book.handed);
    ShownBelow(s);
    SendIdsIn(list, picked, takes, s.book.handed);
    SendIds(list, picked, takes, s.book.handed) by { IdsBelow(s.book); }
    forall i | 0 <= i < |list| && b.list[i].id in s.shown
      ensures client.valid(b.list[i])
    {
      assert Sent(list[i], b.list[i], picked[i] && takes(list[i]), s.book.handed, b.handed);
    }
  }

  /** Over every run, share ids stay distinct and below the counter, as long as it has not
      wrapped. */
  lemma {:induction false} ShareIdsStayDistinct(client: Client, events: seq<Event>)
    requires Proper(events) && Unwrapped(Run(client, events).book.handed)
    ensures var b := Run(client, events).book;
            && (forall i :: 0 <= i < |b.list| && b.list[i].id != 0 ==> FIRST_ID <= b.list[i].id < FIRST_ID + b.handed)
            && (forall i, j :: 0 <= i < j < |b.list| && b.list[i].id != 0 ==> b.list[i].id != b.list[j].id)
  {
    RunIsGood(client, events);
  }

  /** At this point of a run the client is told of every card that goes and that it knows of. */
  ghost predicate TellsAll(s: Server, client: Client, e: Event) {
    e.Update? ==> TellsOf(s, client, Report(s.book.list, e.cards, e.now).left)
  }

  ghost predicate AlwaysTold(client: Client, events: seq<Event>) {
    forall n :: 0 <= n < |events| ==> TellsAll(Run(client, events[..n]), client, events[n])
  }

  ghost predicate AlwaysUpToDate(client: Client, events: seq<Event>) {
    forall n :: 0 <= n <= |events| ==> UpToDate(Run(client, events[..n]))
  }

  ghost predicate AlwaysFoundValid(client: Client, events: seq<Event>) {
    forall n :: 0 <= n < |events| && events[n].Update? ==>
      FoundStaysValid(Run(client, events[..n]), client, events[n].cards, events[n].now)
  }

  /** Logins never leave anything behind. */
  lemma LoginsStayUpToDate(s: Server, client: Client, e: Event)
    requires IdsGood(s.book) && UpToDate(s) && !e.Update? && Unwrapped(Step(s, client, e).book.handed)
    ensures UpToDate(Step(s, client, e))
  {
    hide Send, IdsGood, Told, Wants;
    var list, picked := s.book.list, Everything(s.book.list);
    match e {
      case Login => ToldIsListed(list, picked, Wants(client), Wants(client), s.book.handed);
      case OtherLogin(takes) =>
        ShownBelow(s);
        SendIdsIn(list, picked, takes, s.book.handed);
    }
  }

  lemma StepUpToDateExactlyWhen(s: Server, client: Client, e: Event)
    requires IdsGood(s.book) && UpToDate(s) && (e.Update? ==> NoIds(e.cards))
    requires Unwrapped(Step(s, client, e).book.handed)
    ensures UpToDate(Step(s, client, e)) <==> TellsAll(s, client, e)
  {
    hide Send, Report, IdsGood, Told, Updated, LoggedIn, OtherLoggedIn, UpToDate, TellsOf;
    if e.Update? {
      UpToDateExactlyWhen(s, client, e.cards, e.now, e.others);
    } else {
      LoginsStayUpToDate(s, client, e);
    }
  }

  lemma PrefixesOfOneMore(events: seq<Event>)
    requires events != []
    ensures var front := events[..|events| - 1];
            (forall n :: 0 <= n <= |front| ==> events[..n] == front[..n])
            && (forall n :: 0 <= n < |front| ==> events[n] == front[n])
            && events[..|front|] == front && events[..|events|] == events
  {
  }

  /** Over every run and for every filter: the client's knowledge is up to date all along if and
      only if at each update every card that goes and that it knows of is, as last reported, valid
      for it. */
  lemma {:induction false} UpToDateAlongExactlyWhen(client: Client, events: seq<Event>)
    requires Proper(events) && Unwrapped(Run(client, events).book.handed)
    ensures AlwaysUpToDate(client, events) <==> AlwaysTold(client, events)
  {
    hide Run, Step, TellsAll, UpToDate;
    if events == [] {
      assert UpToDate(Run(client, [])) by { NothingShown(client); }
    } else {
      var front, e := events[..|events| - 1], events[|events| - 1];
      var s := Run(client, front);
      PrefixesOfOneMore(events);
      RunOfOneMore(client, events);
      HandedGrows(s, client, e);
      UpToDateAlongExactlyWhen(client, front);
      RunIsGood(client, front);
      if AlwaysUpToDate(client, front) {
        assert front[..|front|] == front;
        assert UpToDate(s);
        StepUpToDateExactlyWhen(s, client, e);
        assert AlwaysUpToDate(client, events) <==> UpToDate(Run(client, events)) by { AlwaysOfOneMore(client, events); }
        assert AlwaysTold(client, events) <==> TellsAll(s, client, e);
      } else {
        NotAlwaysBefore(client, events);
      }
    }
  }

  lemma {:induction false} NothingShown(client: Client)
    ensures UpToDate(Run(client, []))
  {
  }

  lemma {:induction false} RunOfOneMore(client: Client, events: seq<Event>)
    requires events != []
    ensures Run(client, events) == Step(Run(client, events[..|events| - 1]), client, events[|events| - 1])
  {
  }

  lemma {:induction false} AlwaysOfOneMore(client: Client, events: seq<Event>)
    requires events != [] && AlwaysUpToDate(client, events[..|events| - 1])
    ensures AlwaysUpToDate(client, events) <==> UpToDate(Run(client, events))
  {
    hide Run, UpToDate;
    PrefixesOfOneMore(events);
  }

  lemma {:induction false} NotAlwaysBefore(client: Client, events: seq<Event>)
    requires events != []
    ensures !AlwaysUpToDate(client, events[..|events| - 1]) ==> !AlwaysUpToDate(client, events)
    ensures !AlwaysTold(client, events[..|events| - 1]) ==> !AlwaysTold(client, events)
  {
    hide Run, UpToDate, TellsAll;
    PrefixesOfOneMore(events);
  }

  /** Over every run in which the cards a client knows of stay valid for it as they are found
      again, it knows of no card that has gone. */
  lemma {:induction false} ClientStaysUpToDate(client: Client, events: seq<Event>)
    requires Proper(events) && Unwrapped(Run(client, events).book.handed)
    requires IdBlind(client) && AlwaysFoundValid(client, events)
    ensures InTouch(Run(client, events), client) && AlwaysUpToDate(client, events)
  {
    hide Run, Step, IdBlind, FoundStaysValid, UpToDate, ShownValid, IdsGood, Updated, LoggedIn, OtherLoggedIn;
    PrefixIsAll(events);
    if events == [] {
      assert InTouch(Run(client, []), client) by { StartsInTouch(client); }
    } else {
      var front, e := events[..|events| - 1], events[|events| - 1];
      var s := Run(client, front);
      PrefixesOfOneMore(events);
      RunOfOneMore(client, events);
      HandedGrows(s, client, e);
      ClientStaysUpToDate(client, front);
      StepStaysInTouch(s, client, e);
      AlwaysOfOneMore(client, events);
    }
  }

  lemma PrefixIsAll(events: seq<Event>)
    ensures events[..|events|] == events
  {
  }

  lemma {:induction false} StartsInTouch(client: Client)
    ensures InTouch(Run(client, []), client)
  {
  }

  lemma StepStaysInTouch(s: Server, client: Client, e: Event)
    requires InTouch(s, client) && IdBlind(client) && Unwrapped(Step(s, client, e).book.handed)
    requires e.Update? ==> NoIds(e.cards) && FoundStaysValid(s, client, e.cards, e.now)
    ensures InTouch(Step(s, client, e), client)
  {
    hide InTouch, IdBlind, FoundStaysValid, Updated, LoggedIn, OtherLoggedIn;
    match e {
      case Update(cards, now, others) => UpdateStaysInTouch(s, client, cards, now, others);
      case Login => LoginStaysInTouch(s, client);
      case OtherLogin(takes) => OtherStaysInTouch(s, client, takes);
    }
  }

  // The server's own filter

  /** The client that is node peer, as card_valid_for_client and send_card_to_client see it; filters
      stands for the checks of group, ident, caid and services. */
  function ForPeer(peer: NodeId, a: Account, cfg: Config, filters: Card -> bool): Client {
    Client((c: Card) => ValidFor(c, peer, a.(passes := filters(c)), cfg), (c: Card) => NewReshare(c, a, cfg) >= 0)
  }

  /** Those checks do not look at share ids. */
  ghost predicate FiltersIdBlind(filters: Card -> bool) {
    forall c: Card, id: Word :: filters(c.(id := id)) <==> filters(c)
  }

  /** For every account: as long as a card the client knows of is found again within the hop limit,
      with some reshare, not by way of the client and past the filters, the client stays up to
      date. */
  lemma {:induction false} PeerStaysUpToDate(peer: NodeId, a: Account, cfg: Config, filters: Card -> bool, events: seq<Event>)
    requires FiltersIdBlind(filters) && Proper(events)
    requires Unwrapped(Run(ForPeer(peer, a, cfg, filters), events).book.handed)
    requires AlwaysFoundValid(ForPeer(peer, a, cfg, filters), events)
    ensures AlwaysUpToDate(ForPeer(peer, a, cfg, filters), events)
  {
    hide Run, AlwaysFoundValid, AlwaysUpToDate;
    var client := ForPeer(peer, a, cfg, filters);
    forall c: Card, id: Word
      ensures client.valid(c.(id := id)) <==> client.valid(c)
    {
      assert filters(c.(id := id)) <==> filters(c);
    }
    ClientStaysUpToDate(client, events);
  }

  // A card that moves away

  lemma {:induction false} ReportSingle(prior: seq<Card>, c: Card, now: int)
    ensures Report(prior, [c], now) == ReportOne(Diff([], [], prior), c, now)
  {
    assert [c][..0] == [];
    assert Report(prior, [], now) == Diff([], [], prior);
  }

  lemma {:induction false} SendSingle(c: Card, picked: seq<bool>, takes: Card -> bool, handed: nat)
    requires |picked| == 1
    ensures Send([c], picked, takes, handed) == SendOne(Book([], handed), c, picked[0] && takes(c))
  {
    assert [c][..0] == [] && picked[..0] == [];
    assert Send([], [], takes, handed) == Book([], handed);
  }

  lemma FirstUpdate(client: Client, c: Card, others: Card -> bool)
    requires c.id == 0 && client.Wants(c)
    ensures Updated(Server(Book([], 0), {}), client, [c], 0, others) == Server(Book([c.(id := FIRST_ID)], 1), {FIRST_ID})
  {
    hide Report, Send;
    ReportSingle([], c, 0);
    var d := Report([], [c], 0);
    var picked := NewOnes(d.partners);
    assert d == Diff([c], [None], []);
    SendSingle(c, picked, Takes(client, others), 0);
    var b := Send(d.list, picked, Takes(client, others), 0);
    assert b == Book([c.(id := FIRST_ID)], 1);
    assert Told(d.list, b.list, picked, Wants(client)) == {FIRST_ID} by {
      assert picked[0] && Wants(client)(d.list[0]) && b.list[0].id == FIRST_ID;
    }
  }

  /** A known card is taken over without a word. */
  lemma SecondUpdate(client: Client, prior: Card, c: Card, handed: nat, shown: set<Word>, others: Card -> bool)
    requires Matches(c, prior, 0) && prior.id != 0
    ensures Updated(Server(Book([prior], handed), shown), client, [c], 0, others)
         == Server(Book([Inherit(c, prior)], handed), shown)
  {
    hide Report, Send, Matches;
    ReportSingle([prior], c, 0);
    var d := Report([prior], [c], 0);
    var picked := NewOnes(d.partners);
    assert Without([prior], 0) == [];
    assert d == Diff([Inherit(c, prior)], [Some(prior)], []);
    SendSingle(Inherit(c, prior), picked, Takes(client, others), handed);
    var b := Send(d.list, picked, Takes(client, others), handed);
    assert Told(d.list, b.list, picked, Wants(client)) == {};
    assert Withdrawn([], client) == {};
  }

  lemma LastUpdate(client: Client, prior: Card, handed: nat, shown: set<Word>, others: Card -> bool)
    requires !client.valid(prior)
    ensures Updated(Server(Book([prior], handed), shown), client, [], 0, others) == Server(Book([], handed), shown)
  {
    hide Send;
    var d := Report([prior], [], 0);
    var picked := NewOnes(d.partners);
    var b := Send(d.list, picked, Takes(client, others), handed);
    assert b == Book([], handed) by { SendNothing(picked, Takes(client, others), handed); }
    assert Told(d.list, b.list, picked, Wants(client)) == {};
    assert Withdrawn([prior], client) == {};
  }

  lemma {:induction false} SendNothing(picked: seq<bool>, takes: Card -> bool, handed: nat)
    requires picked == []
    ensures Send([], picked, takes, handed) == Book([], handed)
  {
  }

  function Nobody(): Card -> bool {
    _ => false
  }

  lemma {:induction false} RunOfThree(client: Client, a: Event, b: Event, c: Event)
    ensures Run(client, [a, b, c]) == Step(Step(Step(Server(Book([], 0), {}), client, a), client, b), client, c)
  {
    hide Step;
    assert [a, b, c][..2] == [a, b] && [a, b][..1] == [a] && [a][..0] == [];
    assert Run(client, []) == Server(Book([], 0), {});
    assert Run(client, [a]) == Step(Run(client, []), client, a);
    assert Run(client, [a, b]) == Step(Run(client, [a]), client, b);
  }

  lemma FilterOfPeer(peer: NodeId, a: Account, cfg: Config, filters: Card -> bool, c: Card)
    ensures ForPeer(peer, a, cfg, filters).valid(c) <==> ValidFor(c, peer, a.(passes := filters(c)), cfg)
  {
    hide ValidFor, NewReshare;
  }

  /** For every account and every card at its hop limit: if the card has moved one hop further away
      before it goes, its removal is not told, and the client keeps an id that names nothing. */
  lemma {:induction false} HopLimitLeavesStaleIds(c: Card, peer: NodeId, a: Account, cfg: Config, filters: Card -> bool)
    requires c.kind == CT_REMOTECARD && c.id == 0 && c.hop == a.maxHops < 255
    requires ForPeer(peer, a, cfg, filters).Wants(c)
    ensures var far := c.(hop := Add8(c.hop, 1));
            var events := [Update([c], 0, Nobody()), Update([far], 0, Nobody()), Update([], 0, Nobody())];
            var s := Run(ForPeer(peer, a, cfg, filters), events);
            Proper(events) && s.book.list == [] && s.shown == {FIRST_ID} && !UpToDate(s)
  {
    hide Updated, NewReshare;
    var client, far, near := ForPeer(peer, a, cfg, filters), c.(hop := Add8(c.hop, 1)), c.(id := FIRST_ID);
    FirstUpdate(client, c, Nobody());
    SecondUpdate(client, near, far, 1, {FIRST_ID}, Nobody());
    assert Inherit(far, near).hop as int == a.maxHops + 1;
    FilterOfPeer(peer, a, cfg, filters, Inherit(far, near));
    LastUpdate(client, Inherit(far, near), 1, {FIRST_ID}, Nobody());
    RunOfThree(client, Update([c], 0, Nobody()), Update([far], 0, Nobody()), Update([], 0, Nobody()));
  }
}
