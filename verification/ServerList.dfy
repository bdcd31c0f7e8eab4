/** add_card_to_serverlist and its helpers with the source's loops, each proved against
    the functions of CardList (oscam/module-cccshare.c:698-757, 814-873, 938-1077). */
module ServerList {
  import opened Bytes
  import opened Cards
  import opened CardList

  /** The inner search loop of the provider helpers. */
  method HasProvider(ps: seq<Provider>, prov: Word) returns (found: bool)
    ensures found <==> prov in Numbers(ps)
  {
    var i := 0;
    while i < |ps| && ps[i].prov != prov
      invariant i <= |ps|
      invariant forall j :: 0 <= j < i ==> ps[j].prov != prov
    {
      i := i + 1;
    }
    found := i < |ps|;
    if found {
      assert ps[i] in ps;
    }
  }

  /** num_same_providers */
  method NumSameProviders(a: seq<Provider>, b: seq<Provider>) returns (found: nat)
    ensures found == CountShared(a, b)
  {
    hide Numbers;
    found := 0;
    for i := 0 to |a|
      invariant found == CountShared(a[..i], b)
    {
      assert a[..i + 1][..i] == a[..i];
      var hit := HasProvider(b, a[i].prov);
      if hit {
        found := found + 1;
      }
    }
    assert a[..|a|] == a;
  }

  /** equal_providers */
  method CheckEqualProviders(a: seq<Provider>, b: seq<Provider>) returns (equal: bool)
    ensures equal <==> EqualProviders(a, b)
  {
    hide Numbers;
    if |a| != |b| {
      return false;
    }
    var i := 0;
    while i < |a|
      invariant i <= |a|
      invariant forall j :: 0 <= j < i ==> a[j].prov in Numbers(b)
    {
      var hit := HasProvider(b, a[i].prov);
      if !hit {
        return false;
      }
      i := i + 1;
    }
    equal := true;
  }

  /** add_card_providers, providers */
  method AddProviders(dest: seq<Provider>, src: seq<Provider>) returns (merged: seq<Provider>)
    ensures merged == Added(dest, src)
  {
    hide Numbers;
    merged := dest;
    for i := 0 to |src|
      invariant merged == Added(dest, src[..i])
    {
      assert src[..i + 1][..i] == src[..i];
      var hit := HasProvider(merged, src[i].prov);
      if !hit {
        merged := merged + [src[i]];
      }
    }
    assert src[..|src|] == src;
  }

  /** add_card_providers, remote nodes */
  method AddNodes(dest: seq<NodeId>, src: seq<NodeId>) returns (merged: seq<NodeId>)
    ensures merged == AddedNodes(dest, src)
  {
    merged := dest;
    for i := 0 to |src|
      invariant merged == AddedNodes(dest, src[..i])
    {
      assert src[..i + 1][..i] == src[..i];
      var j := 0;
      while j < |merged| && merged[j] != src[i]
        invariant j <= |merged|
        invariant forall m :: 0 <= m < j ==> merged[m] != src[i]
      {
        j := j + 1;
      }
      if j == |merged| {
        merged := merged + [src[i]];
      }
    }
    assert src[..|src|] == src;
  }

  /** create_card followed by add_card_providers */
  method CopyCard(c: Card) returns (copy: Card)
    ensures copy == Copied(c)
  {
    hide Added, AddedNodes;
    var ps := AddProviders([], c.providers);
    var ns := AddNodes([], c.nodes);
    copy := c.(id := 0, providers := ps, nodes := ns);
  }

  method IsSame(mode: Minimize, c: Card, d: Card) returns (same: bool)
    ensures same <==> Same(mode, c, d)
  {
    hide CountShared, EqualProviders;
    match mode
    case LikeCccam => same := SameCard(c, d);
    case Hops =>
      same := CheckEqualProviders(c.providers, d.providers);
      same := same && SameCard2(c, d);
    case Caid =>
      var nsame := NumSameProviders(c.providers, d.providers);
      var ndiff := |c.providers| - nsame;
      same := SameCard2(c, d) && ndiff + |d.providers| <= CS_MAXPROV;
  }

  lemma {:induction false} FindIs(mode: Minimize, list: seq<Card>, c: Card, k: nat)
    requires k <= |list| && (k < |list| ==> Same(mode, c, list[k]))
    requires forall i :: 0 <= i < k ==> !Same(mode, c, list[i])
    ensures Find(mode, list, c) == k
  {
    hide Same;
    var f := Find(mode, list, c);
    assert f >= k;
  }

  /** One of the server's card lists. */
  class Cardlist {
    var cards: seq<Card>

    constructor ()
      ensures cards == []
    {
      cards := [];
    }

    /** The search loop at the head of each of the three modes. */
    method Search(mode: Minimize, c: Card) returns (k: nat)
      ensures k == Find(mode, cards, c)
    {
      hide Same;
      k := 0;
      while k < |cards|
        invariant k <= |cards|
        invariant forall i :: 0 <= i < k ==> !Same(mode, c, cards[i])
        decreases |cards| - k
      {
        var same := IsSame(mode, c, cards[k]);
        if same {
          break;
        }
        k := k + 1;
      }
      FindIs(mode, cards, c, k);
    }

    /** add_card_to_serverlist; modified unless the card was only merged or dropped */
    method Add(mode: Minimize, c: Card, free: bool) returns (modified: bool)
      modifies this
      ensures cards == AddCard(mode, old(cards), c, free)
      ensures modified <==> var k := Find(mode, old(cards), c);
                            k == |old(cards)| || (mode != Caid && old(cards)[k].hop > c.hop)
    {
      hide Added, AddedNodes, Same, Find;
      var k := Search(mode, c);
      var entry := c;
      if !free {
        entry := CopyCard(c);
      }
      if k == |cards| {
        if mode == Caid && !free {
          entry := entry.(hop := 0);
        }
        cards := cards + [entry];
        return true;
      }
      var d := cards[k];
      if mode != Caid && d.hop > c.hop {
        cards := Replaced(cards, k, entry);
        return true;
      }
      if mode != LikeCccam {
        var merged := AddProviders(d.providers, c.providers);
        d := d.(grp := d.grp + c.grp, providers := merged);
        if mode == Caid {
          d := d.(nodes := []);
        }
      }
      cards := cards[k := d];
      modified := false;
    }

    /** The update loop that fills the list. */
    method AddAllOf(mode: Minimize, offers: seq<Offer>)
      requires cards == []
      modifies this
      ensures cards == AddAll(mode, offers)
    {
      hide AddCard;
      for i := 0 to |offers|
        invariant cards == AddAll(mode, offers[..i])
      {
        assert offers[..i + 1][..i] == offers[..i];
        var _ := Add(mode, offers[i].card, offers[i].free);
      }
      assert offers[..|offers|] == offers;
    }
  }
}
