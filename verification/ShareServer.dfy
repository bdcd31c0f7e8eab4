/** The tail of update_card_list and cc_srv_report_cards with their loops over the static
    share list and counter (oscam/module-cccshare.c:19-20, 1106-1152, 1500-1566). */
module ShareServer {
  import opened Bytes
  import opened Cards
  import opened ShareList
  import opened ShareRuns

  lemma {:induction false} LookupIs(prior: seq<Card>, c: Card, now: int, k: nat)
    requires k <= |prior| && (k < |prior| ==> Matches(c, prior[k], now))
    requires forall i :: 0 <= i < k ==> !Matches(c, prior[i], now)
    ensures Lookup(prior, c, now) == k
  {
    hide Matches;
    var f := Lookup(prior, c, now);
    assert f >= k;
  }

  class Sharelist {
    var reported: seq<Card>
    var shareId: Word
    ghost var handed: nat

    ghost predicate Valid()
      reads this
    {
      shareId == ShareId(handed)
    }

    ghost function Contents(): Book
      reads this
    {
      Book(reported, handed)
    }

    constructor ()
      ensures Valid() && Contents() == Book([], 0)
    {
      reported, shareId, handed := [], FIRST_ID, 0;
    }

    /** find_reported_card: takes the first matching card out of the old list */
    static method FindReported(left: seq<Card>, c: Card, now: int) returns (card: Card, found: bool, rest: seq<Card>)
      ensures var k := Lookup(left, c, now);
              && (found <==> k < |left|)
              && card == (if found then Inherit(c, left[k]) else c)
              && rest == if found then Without(left, k) else left
    {
      hide Matches;
      var i := 0;
      while i < |left|
        invariant i <= |left|
        invariant forall j :: 0 <= j < i ==> !Matches(c, left[j], now)
        decreases |left| - i
      {
        if Matches(c, left[i], now) {
          break;
        }
        i := i + 1;
      }
      LookupIs(left, c, now, i);
      found := i < |left|;
      if found {
        card, rest := Inherit(c, left[i]), Without(left, i);
      } else {
        card, rest := c, left;
      }
    }

    /** report_card for every card of the new list */
    static method ReportAll(prior: seq<Card>, cards: seq<Card>, now: int)
      returns (list: seq<Card>, added: seq<bool>, left: seq<Card>)
      ensures var d := Report(prior, cards, now);
              list == d.list && added == NewOnes(d.partners) && left == d.left
    {
      hide Matches, Inherit, Without;
      list, added, left := [], [], prior;
      ghost var partners := [];
      for i := 0 to |cards|
        invariant Report(prior, cards[..i], now) == Diff(list, partners, left)
        invariant |added| == |partners| && forall j :: 0 <= j < |added| ==> added[j] == partners[j].None?
      {
        assert cards[..i + 1][..i] == cards[..i];
        var card, found, rest := FindReported(left, cards[i], now);
        partners := partners + [if found then Some(left[Lookup(left, cards[i], now)]) else None];
        list, added, left := list + [card], added + [!found], rest;
      }
      assert cards[..|cards|] == cards;
      assert added == NewOnes(partners);
    }

    /** send_card_to_client for every card that is picked, as far as it concerns the list */
    method SendAll(picked: seq<bool>, takes: Card -> bool)
      requires Valid() && |picked| == |reported|
      modifies this
      ensures Valid() && Contents() == Send(old(reported), picked, takes, old(handed))
    {
      hide Send, SendOne;
      ghost var list := reported;
      assert Send([], [], takes, handed) == Book([], handed) by { SendNothing([], takes, handed); }
      for i := 0 to |picked|
        invariant |reported| == |list| == |picked|
        invariant shareId == ShareId(handed)
        invariant Book(reported[..i], handed) == Send(list[..i], picked[..i], takes, old(handed))
        invariant reported[i..] == list[i..]
      {
        SendSnoc(list, picked, takes, old(handed), i);
        assert reported[i] == reported[i..][0] == list[i..][0] == list[i];
        assert list[i..][1..] == list[i + 1..] && reported[i..][1..] == reported[i + 1..];
        ghost var before := reported[..i];
        SendOneIs(Book(before, handed), list[i], picked[i] && takes(list[i]));
        if picked[i] && takes(reported[i]) && reported[i].id == 0 {
          var c := reported[i].(id := shareId);
          reported := reported[i := c];
          shareId := (shareId + 1) % 0x1_0000_0000;
          NextShareId(handed);
          handed := handed + 1;
        }
        assert reported[..i] == before;
        assert reported[..i + 1] == before + [reported[i]];
      }
      assert list[..|picked|] == list && picked[..|picked|] == picked && reported[..|picked|] == reported;
    }

    /** update_card_list from the reporting loop on; removed are the cards whose removal is
        told to the clients they are valid for */
    method Update(cards: seq<Card>, now: int, ghost client: Client, takes: Card -> bool, ghost others: Card -> bool)
      returns (removed: seq<Card>, added: seq<bool>)
      requires Valid() && takes == Takes(client, others)
      modifies this
      ensures Valid() && Contents() == Updated(Server(old(Contents()), {}), client, cards, now, others).book
      ensures removed == Report(old(reported), cards, now).left
      ensures added == NewOnes(Report(old(reported), cards, now).partners)
    {
      hide Report, Send;
      var list;
      list, added, removed := ReportAll(reported, cards, now);
      reported := list;
      SendAll(added, takes);
    }

    /** cc_srv_report_cards */
    method ReportTo(client: Client)
      requires Valid()
      modifies this
      ensures Valid() && Contents() == LoggedIn(Server(old(Contents()), {}), client).book
    {
      hide Send;
      SendAll(Everything(reported), Wants(client));
    }
  }

  lemma NextShareId(n: nat)
    ensures ShareId(n + 1) == (ShareId(n) + 1) % 0x1_0000_0000
  {
  }

  lemma {:induction false} SendSnoc(list: seq<Card>, picked: seq<bool>, takes: Card -> bool, handed: nat, i: nat)
    requires |picked| == |list| && i < |list|
    ensures Send(list[..i + 1], picked[..i + 1], takes, handed)
         == SendOne(Send(list[..i], picked[..i], takes, handed), list[i], picked[i] && takes(list[i]))
  {
    assert list[..i + 1][..i] == list[..i] && picked[..i + 1][..i] == picked[..i];
  }

  lemma SendOneIs(b: Book, c: Card, taken: bool)
    ensures SendOne(b, c, taken) ==
              if taken && c.id == 0 then Book(b.list + [c.(id := ShareId(b.handed))], b.handed + 1)
              else Book(b.list + [c], b.handed)
  {
  }
}
