/** The server's share list: the difference between two updates, the share ids and what a
    client has been told (oscam/module-cccshare.c:19, 293-378, 393-441, 493-533, 1085-1152,
    1500-1566). The lists kept per caid are one list here: matching cards have equal caids. */
module ShareList {
  import opened Bytes
  import opened Cards
  import opened CardList

  // Finding reported cards

  /** card_timed_out */
  predicate TimedOut(c: Card, now: int) {
    c.kind != CT_REMOTECARD && c.timeout < now
  }

  predicate Matches(c: Card, prior: Card, now: int) {
    SameCard(c, prior) && !TimedOut(prior, now)
  }

  function Lookup(prior: seq<Card>, c: Card, now: int): (k: nat)
    ensures k <= |prior|
    ensures k < |prior| ==> Matches(c, prior[k], now)
    ensures forall i :: 0 <= i < k ==> !Matches(c, prior[i], now)
  {
    if prior == [] || Matches(c, prior[0], now) then 0 else 1 + Lookup(prior[1..], c, now)
  }

  function Without<T>(s: seq<T>, k: nat): seq<T>
    requires k < |s|
  {
    s[..k] + s[k + 1..]
  }

  /** The new list, the old card each of its cards was matched with, and the old cards
      that are left over. */
  datatype Diff = Diff(list: seq<Card>, partners: seq<Option<Card>>, left: seq<Card>)

  function Inherit(c: Card, prior: Card): Card {
    c.(id := prior.id, timeout := prior.timeout)
  }

  /** report_card over a list of cards */
  function Report(prior: seq<Card>, cards: seq<Card>, now: int): (d: Diff)
    ensures |d.list| == |d.partners| == |cards|
  {
    if cards == [] then Diff([], [], prior)
    else
      var d, c := Report(prior, cards[..|cards| - 1], now), cards[|cards| - 1];
      ReportOne(d, c, now)
  }

  /** find_reported_card and report_card */
  function ReportOne(d: Diff, c: Card, now: int): (r: Diff)
    ensures |r.list| == |d.list| + 1 && |r.partners| == |d.partners| + 1
  {
    var k := Lookup(d.left, c, now);
    if k == |d.left| then Diff(d.list + [c], d.partners + [None], d.left)
    else Diff(d.list + [Inherit(c, d.left[k])], d.partners + [Some(d.left[k])], Without(d.left, k))
  }

  /** The old cards that were matched. */
  function Kept(partners: seq<Option<Card>>): seq<Card> {
    if partners == [] then []
    else
      var front, p := partners[..|partners| - 1], partners[|partners| - 1];
      if p.Some? then Kept(front) + [p.value] else Kept(front)
  }

  function CountNew(partners: seq<Option<Card>>): nat {
    if partners == [] then 0
    else CountNew(partners[..|partners| - 1]) + (if partners[|partners| - 1].None? then 1 else 0)
  }

  lemma {:induction false} SomesSnoc(partners: seq<Option<Card>>, p: Option<Card>)
    ensures Kept(partners + [p]) == if p.Some? then Kept(partners) + [p.value] else Kept(partners)
    ensures CountNew(partners + [p]) == CountNew(partners) + if p.None? then 1 else 0
  {
    assert (partners + [p])[..|partners|] == partners;
  }

  lemma WithoutCounts<T>(s: seq<T>, k: nat)
    requires k < |s|
    ensures multiset(s) == multiset(Without(s, k)) + multiset{s[k]}
  {
    assert s == s[..k] + [s[k]] + s[k + 1..];
  }

  /** An update splits the old list: every old card is either matched with exactly one new
      card or left over. */
  lemma {:induction false} EveryOldCardOnce(prior: seq<Card>, cards: seq<Card>, now: int)
    ensures var d := Report(prior, cards, now);
            && multiset(Kept(d.partners)) + multiset(d.left) == multiset(prior)
            && |prior| == |Kept(d.partners)| + |d.left|
            && |cards| == |Kept(d.partners)| + CountNew(d.partners)
  {
    hide Matches, Kept, CountNew, Without;
    if cards == [] {
      assert Kept([]) == [] && CountNew([]) == 0 by { NoPartners(); }
    } else {
      var d, c := Report(prior, cards[..|cards| - 1], now), cards[|cards| - 1];
      EveryOldCardOnce(prior, cards[..|cards| - 1], now);
      var k := Lookup(d.left, c, now);
      if k < |d.left| {
        SomesSnoc(d.partners, Some(d.left[k]));
        WithoutCounts(d.left, k);
        WithoutLength(d.left, k);
      } else {
        SomesSnoc(d.partners, None);
      }
    }
  }

  lemma NoPartners()
    ensures Kept([]) == [] && CountNew([]) == 0
  {
  }

  lemma WithoutLength<T>(s: seq<T>, k: nat)
    requires k < |s|
    ensures |Without(s, k)| == |s| - 1
    ensures forall x :: x in Without(s, k) ==> x in s
  {
  }

  /** The old card is the same and has not timed out: remote cards never do. */
  ghost predicate StillGood(c: Card, prior: Card, now: int) {
    SameCard(c, prior) && (prior.kind == CT_REMOTECARD || now <= prior.timeout)
  }

  /** r is what becomes of the new card c: itself, but with id and timeout of its partner. */
  ghost predicate WellMatched(c: Card, now: int, r: Card, partner: Option<Card>) {
    match partner
    case None => r == c
    case Some(p) =>
      StillGood(c, p, now) && r.id == p.id && r.timeout == p.timeout && r == c.(id := r.id, timeout := r.timeout)
  }

  lemma InheritIsWellMatched(c: Card, prior: Card, now: int)
    ensures Matches(c, prior, now) <==> StillGood(c, prior, now)
    ensures Matches(c, prior, now) ==> WellMatched(c, now, Inherit(c, prior), Some(prior))
  {
  }

  /** A matched card takes over id and timeout from an equal card that is not outdated, and
      a card counts as new only when no left over card would do. */
  lemma {:induction false} MatchedOrNew(prior: seq<Card>, cards: seq<Card>, now: int)
    ensures var d := Report(prior, cards, now);
            && (forall i :: 0 <= i < |cards| ==> WellMatched(cards[i], now, d.list[i], d.partners[i]))
            && (forall i, o :: 0 <= i < |cards| && d.partners[i].None? && o in d.left ==> !StillGood(cards[i], o, now))
            && (forall o :: o in d.left ==> o in prior)
  {
    hide Matches, Without, WellMatched, Inherit, StillGood;
    if cards == [] {
    } else {
      var d, c := Report(prior, cards[..|cards| - 1], now), cards[|cards| - 1];
      MatchedOrNew(prior, cards[..|cards| - 1], now);
      var k := Lookup(d.left, c, now);
      if k < |d.left| {
        WithoutLength(d.left, k);
        InheritIsWellMatched(c, d.left[k], now);
      } else {
        NewIsWellMatched(c, now);
        forall o | o in d.left
          ensures !StillGood(c, o, now)
        {
          InheritIsWellMatched(c, o, now);
        }
      }
    }
  }

  lemma NewIsWellMatched(c: Card, now: int)
    ensures WellMatched(c, now, c, None)
  {
  }

  // Share ids

  const FIRST_ID := 0x64

  /** How often an id occurs in a list. */
  function IdCount(list: seq<Card>, id: int): nat {
    if list == [] then 0
    else IdCount(list[..|list| - 1], id) + (if list[|list| - 1].id == id then 1 else 0)
  }

  lemma {:induction false} IdCountSnoc(list: seq<Card>, c: Card, id: int)
    ensures IdCount(list + [c], id) == IdCount(list, id) + if c.id == id then 1 else 0
  {
    assert (list + [c])[..|list|] == list;
  }

  lemma {:induction false} IdCountConcat(a: seq<Card>, b: seq<Card>, id: int)
    ensures IdCount(a + b, id) == IdCount(a, id) + IdCount(b, id)
  {
    if b == [] {
      assert a + b == a;
    } else {
      var front, c := b[..|b| - 1], b[|b| - 1];
      IdCountConcat(a, front, id);
      assert a + b == (a + front) + [c];
      IdCountSnoc(a + front, c, id);
    }
  }

  lemma {:induction false} IdCountWithout(list: seq<Card>, k: nat, id: int)
    requires k < |list|
    ensures IdCount(list, id) == IdCount(Without(list, k), id) + if list[k].id == id then 1 else 0
  {
    hide IdCount;
    IdCountConcat(list[..k], list[k + 1..], id);
    IdCountSnoc(list[..k], list[k], id);
    IdCountConcat(list[..k] + [list[k]], list[k + 1..], id);
    assert list == list[..k] + [list[k]] + list[k + 1..];
  }

  lemma {:induction false} IdCountMember(list: seq<Card>, id: int)
    ensures IdCount(list, id) > 0 <==> exists i :: 0 <= i < |list| && list[i].id == id
  {
    if list == [] {
    } else {
      var front := list[..|list| - 1];
      IdCountMember(front, id);
      if IdCount(front, id) > 0 {
        var i :| 0 <= i < |front| && front[i].id == id;
        assert list[i].id == id;
      }
    }
  }

  ghost predicate NoIds(cards: seq<Card>) {
    forall i :: 0 <= i < |cards| ==> cards[i].id == 0
  }

  /** No share id in use gets lost or doubled: it ends up in the new list or among the
      cards left over, once for each time it was there. */
  lemma {:induction false} IdsAreConserved(prior: seq<Card>, cards: seq<Card>, now: int, id: int)
    requires NoIds(cards) && id != 0
    ensures var d := Report(prior, cards, now);
            IdCount(d.list, id) + IdCount(d.left, id) == IdCount(prior, id)
  {
    hide Matches, IdCount, Without;
    if cards == [] {
      assert IdCount([], id) == 0 by { IdCountMember([], id); }
    } else {
      var d, c := Report(prior, cards[..|cards| - 1], now), cards[|cards| - 1];
      IdsAreConserved(prior, cards[..|cards| - 1], now, id);
      var k := Lookup(d.left, c, now);
      if k < |d.left| {
        IdCountWithout(d.left, k, id);
        IdCountSnoc(d.list, Inherit(c, d.left[k]), id);
      } else {
        IdCountSnoc(d.list, c, id);
      }
    }
  }

  lemma AddCardHasNoId(mode: Minimize, list: seq<Card>, c: Card, free: bool)
    requires NoIds(list) && (free ==> c.id == 0)
    ensures NoIds(AddCard(mode, list, c, free))
  {
    hide Same, Added, AddedNodes, Find;
    var r := AddCard(mode, list, c, free);
    forall i | 0 <= i < |r|
      ensures r[i].id == 0
    {
    }
  }

  /** The minimised list of an update holds no ids yet: cards are copied without theirs,
      and those taken over have just been made. */
  lemma {:induction false} MinimisedHasNoIds(mode: Minimize, offers: seq<Offer>)
    requires forall i :: 0 <= i < |offers| && offers[i].free ==> offers[i].card.id == 0
    ensures NoIds(AddAll(mode, offers))
  {
    hide AddCard;
    if offers == [] {
    } else {
      var front, o := offers[..|offers| - 1], offers[|offers| - 1];
      assert forall i :: 0 <= i < |front| ==> front[i] == offers[i];
      MinimisedHasNoIds(mode, front);
      AddCardHasNoId(mode, AddAll(mode, front), o.card, o.free);
    }
  }

  // Sending cards

  /** The id after n others have been handed out; cc_share_id is 32 bits wide. */
  function ShareId(n: nat): Word {
    (FIRST_ID + n) % 0x1_0000_0000
  }

  /** A client as the server sees it: card_valid_for_client, and whether the reshare left
      for the card is not negative. */
  datatype Client = Client(valid: Card -> bool, reshares: Card -> bool) {
    predicate Wants(c: Card) {
      valid(c) && reshares(c)
    }
  }

  datatype Book = Book(list: seq<Card>, handed: nat)

  /** send_card_to_client over a list of cards, as far as it concerns the list: a card
      without an id gets one when it is first sent. picked says which cards are sent at
      all, takes which of them somebody accepts. */
  function Send(list: seq<Card>, picked: seq<bool>, takes: Card -> bool, handed: nat): (b: Book)
    requires |picked| == |list|
    ensures |b.list| == |list|
  {
    if list == [] then Book([], handed)
    else
      var b, c := Send(list[..|list| - 1], picked[..|list| - 1], takes, handed), list[|list| - 1];
      SendOne(b, c, picked[|list| - 1] && takes(c))
  }

  function SendOne(b: Book, c: Card, taken: bool): (r: Book)
    ensures |r.list| == |b.list| + 1
  {
    if taken && c.id == 0 then Book(b.list + [c.(id := ShareId(b.handed))], b.handed + 1)
    else Book(b.list + [c], b.handed)
  }

  /** Which cards a client has been sent. */
  function Told(before: seq<Card>, after: seq<Card>, picked: seq<bool>, wants: Card -> bool): set<Word>
    requires |picked| == |before| == |after|
  {
    set i | 0 <= i < |before| && picked[i] && wants(before[i]) :: after[i].id
  }

  /** Share ids are nonzero only if they have been handed out, and then belong to one card. */
  ghost predicate IdsGood(b: Book) {
    && (forall i :: 0 <= i < |b.list| ==> b.list[i].id == 0 || FIRST_ID <= b.list[i].id < FIRST_ID + b.handed)
    && (forall i, j :: 0 <= i < j < |b.list| && b.list[i].id == b.list[j].id ==> b.list[i].id == 0)
  }

  /** cc_share_id has not wrapped. */
  ghost predicate Unwrapped(handed: nat) {
    FIRST_ID + handed <= 0x1_0000_0000
  }

  lemma ShareIdUnwrapped(n: nat)
    requires Unwrapped(n + 1)
    ensures ShareId(n) == FIRST_ID + n
  {
  }

  /** Two ids handed out are equal exactly when a multiple of 2^32 lies between them, so the
      bound of Unwrapped cannot be dropped. */
  lemma ShareIdsRepeat(m: nat, n: nat)
    ensures ShareId(m) == ShareId(n) <==> (m - n) % 0x1_0000_0000 == 0
  {
    var w := 0x1_0000_0000;
    var x, y := FIRST_ID + m, FIRST_ID + n;
    assert x == (x / w) * w + x % w && y == (y / w) * w + y % w;
    assert m - n == (x / w - y / w) * w + (x % w - y % w);
    MultipleRemains(x / w - y / w, x % w - y % w);
  }

  lemma MultipleRemains(q: int, r: int)
    requires -0x1_0000_0000 < r < 0x1_0000_0000
    ensures (q * 0x1_0000_0000 + r) % 0x1_0000_0000 == 0 <==> r == 0
  {
    var w := 0x1_0000_0000;
    if r < 0 {
      assert (q * w + r) == (q - 1) * w + (r + w);
    }
  }
}
