/** Minimising a server's card list: add_card_to_serverlist with its provider helpers
    (oscam/module-cccshare.c:698-757, 814-873, 938-1077). */
module CardList {
  import opened Bytes
  import opened Cards

  const CS_MAXPROV := 32

  // Providers

  /** num_same_providers: entries of a whose number occurs in b */
  function CountShared(a: seq<Provider>, b: seq<Provider>): nat {
    if a == [] then 0
    else CountShared(a[..|a| - 1], b) + (if a[|a| - 1].prov in Numbers(b) then 1 else 0)
  }

  /** equal_providers: as many entries, and each of a occurs in b */
  predicate EqualProviders(a: seq<Provider>, b: seq<Provider>) {
    |a| == |b| && forall i :: 0 <= i < |a| ==> a[i].prov in Numbers(b)
  }

  /** add_card_providers, first part: append what is not there yet */
  function Added(dest: seq<Provider>, src: seq<Provider>): seq<Provider> {
    if src == [] then dest
    else
      var d, p := Added(dest, src[..|src| - 1]), src[|src| - 1];
      if p.prov in Numbers(d) then d else d + [p]
  }

  /** add_card_providers, second part, for node ids */
  function AddedNodes(dest: seq<NodeId>, src: seq<NodeId>): seq<NodeId> {
    if src == [] then dest
    else
      var d, n := AddedNodes(dest, src[..|src| - 1]), src[|src| - 1];
      if n in d then d else d + [n]
  }

  lemma NumbersSnoc(ps: seq<Provider>, p: Provider)
    ensures Numbers(ps + [p]) == Numbers(ps) + {p.prov}
  {
    forall x | x in Numbers(ps) + {p.prov}
      ensures x in Numbers(ps + [p])
    {
      if x != p.prov {
        var q :| q in ps && q.prov == x;
        assert q in ps + [p];
      } else {
        assert p in ps + [p];
      }
    }
  }

  /** Merging yields the union of the provider numbers. */
  lemma {:induction false} AddedIsUnion(dest: seq<Provider>, src: seq<Provider>)
    ensures Numbers(Added(dest, src)) == Numbers(dest) + Numbers(src)
  {
    hide Numbers;
    if src == [] {
      assert Numbers([]) == {} by { NoNumbers(); }
    } else {
      var front, p := src[..|src| - 1], src[|src| - 1];
      AddedIsUnion(dest, front);
      NumbersSnoc(front, p);
      assert src == front + [p];
      NumbersSnoc(Added(dest, front), p);
    }
  }

  lemma NoNumbers()
    ensures Numbers([]) == {}
  {
  }

  /** Merging keeps a list without duplicates free of them. */
  lemma {:induction false} AddedStaysDistinct(dest: seq<Provider>, src: seq<Provider>)
    requires DistinctProviders(dest)
    ensures DistinctProviders(Added(dest, src))
  {
    if src == [] {
    } else {
      AddedStaysDistinct(dest, src[..|src| - 1]);
    }
  }

  lemma {:induction false} DistinctCount(ps: seq<Provider>)
    ensures |Numbers(ps)| <= |ps|
    ensures DistinctProviders(ps) <==> |Numbers(ps)| == |ps|
  {
    hide Numbers, DistinctProviders;
    if ps == [] {
      NoNumbers();
      assert DistinctProviders(ps) by { NoneRepeat(ps); }
    } else {
      var front, p := ps[..|ps| - 1], ps[|ps| - 1];
      DistinctCount(front);
      NumbersSnoc(front, p);
      assert ps == front + [p];
      DistinctSnoc(front, p);
    }
  }

  lemma NoneRepeat(ps: seq<Provider>)
    requires ps == []
    ensures DistinctProviders(ps)
  {
  }

  lemma DistinctSnoc(front: seq<Provider>, p: Provider)
    ensures DistinctProviders(front + [p]) <==> DistinctProviders(front) && p.prov !in Numbers(front)
  {
    var ps := front + [p];
    if DistinctProviders(ps) {
      NotAmong(front, p, ps);
      assert forall i :: 0 <= i < |front| ==> front[i] == ps[i];
    }
    if DistinctProviders(front) && p.prov !in Numbers(front) {
      assert forall i :: 0 <= i < |front| ==> ps[i] in front;
    }
  }

  /** The size the caller predicts for a merge is reached exactly when the added list has
      no duplicates of its own among the new numbers, and never exceeded. */
  lemma {:induction false} MergedSize(dest: seq<Provider>, src: seq<Provider>)
    ensures |Added(dest, src)| <= |dest| + |src| - CountShared(src, dest)
    ensures DistinctProviders(src) ==> |Added(dest, src)| == |dest| + |src| - CountShared(src, dest)
  {
    hide Numbers;
    if src == [] {
    } else {
      var front, p := src[..|src| - 1], src[|src| - 1];
      MergedSize(dest, front);
      AddedIsUnion(dest, front);
      if DistinctProviders(src) {
        assert DistinctProviders(front) by {
          assert forall i :: 0 <= i < |front| ==> front[i] == src[i];
        }
        NotAmong(front, p, src);
      }
    }
  }

  lemma NotAmong(front: seq<Provider>, p: Provider, src: seq<Provider>)
    requires src == front + [p] && DistinctProviders(src)
    ensures p.prov !in Numbers(front)
  {
    forall q | q in front
      ensures q.prov != p.prov
    {
      var i :| 0 <= i < |front| && front[i] == q;
      assert src[i] == q && src[|front|] == p;
    }
  }

  /** equal_providers decides equality of provider sets when neither list repeats one. */
  lemma EqualProvidersIsSetEquality(a: seq<Provider>, b: seq<Provider>)
    requires DistinctProviders(a) && DistinctProviders(b)
    ensures EqualProviders(a, b) <==> Numbers(a) == Numbers(b)
  {
    DistinctCount(a);
    DistinctCount(b);
    if EqualProviders(a, b) {
      assert Numbers(a) <= Numbers(b);
      SubsetOfSameSize(Numbers(a), Numbers(b));
    }
    if Numbers(a) == Numbers(b) {
      forall i | 0 <= i < |a|
        ensures a[i].prov in Numbers(b)
      {
        assert a[i] in a;
      }
    }
  }

  lemma SubsetOfSameSize<T>(a: set<T>, b: set<T>)
    requires a <= b && |a| == |b|
    ensures a == b
  {
    if a != b {
      var x :| x in b && x !in a;
      SubsetSize(a, b - {x});
    }
  }

  /** With repeated providers it does not: it even depends on the order of its arguments. */
  lemma EqualProvidersNeedsDistinct(p: Provider, q: Provider)
    requires p.prov != q.prov
    ensures EqualProviders([p, p], [p, q]) && !EqualProviders([p, q], [p, p])
    ensures Numbers([p, p]) != Numbers([p, q])
  {
    var a, b := [p, p], [p, q];
    assert p in a && p in b && q in b;
    assert a[0].prov in Numbers(b) && a[1].prov in Numbers(b);
    assert b[1].prov == q.prov && q.prov !in Numbers(a);
    assert q.prov in Numbers(b);
  }

  /** A list without its repetitions is shorter exactly if it has some. */
  lemma {:induction false} RepetitionsShrink(a: seq<Provider>)
    ensures DistinctProviders(Added([], a)) && Numbers(Added([], a)) == Numbers(a)
    ensures |Added([], a)| == |a| <==> DistinctProviders(a)
  {
    hide Numbers, Added;
    AddedIsUnion([], a);
    NoNumbers();
    AddedStaysDistinct([], a);
    DistinctCount(Added([], a));
    DistinctCount(a);
  }

  /** equal_providers compares a with every list without repetitions as sets, if and only if a has
      none itself. */
  lemma EqualProvidersExactlyWhen(a: seq<Provider>)
    ensures DistinctProviders(a) <==>
              forall b :: DistinctProviders(b) ==> (EqualProviders(a, b) <==> Numbers(a) == Numbers(b))
  {
    hide Numbers;
    RepetitionsShrink(a);
    if DistinctProviders(a) {
      forall b | DistinctProviders(b)
        ensures EqualProviders(a, b) <==> Numbers(a) == Numbers(b)
      {
        EqualProvidersIsSetEquality(a, b);
      }
    } else {
      assert !EqualProviders(a, Added([], a));
    }
  }

  // The list

  /** cfg.cc_minimize_cards, with cc_forward_origin_card off */
  datatype Minimize = LikeCccam | Hops | Caid

  /** create_card and add_card_providers with node ids: a copy under no share id */
  function Copied(c: Card): Card {
    c.(id := 0, providers := Added([], c.providers), nodes := AddedNodes([], c.nodes))
  }

  /** A free card is taken over as it is. */
  function Taken(c: Card, free: bool): Card {
    if free then c else Copied(c)
  }

  /** MINIMIZE_CAID forgets how far away a copied card is, ... */
  function Entered(c: Card, free: bool): Card {
    if free then c else Copied(c).(hop := 0)
  }

  /** ... and which nodes a merged one came through. */
  function Merged(d: Card, c: Card): Card {
    d.(grp := d.grp + c.grp, providers := Added(d.providers, c.providers), nodes := [])
  }

  predicate SameForHops(c: Card, d: Card) {
    SameCard2(c, d) && EqualProviders(c.providers, d.providers)
  }

  /** In MINIMIZE_CAID a card is merged only while the result has at most 32 providers. */
  predicate SameForCaid(c: Card, d: Card) {
    SameCard2(c, d) && |c.providers| - CountShared(c.providers, d.providers) + |d.providers| <= CS_MAXPROV
  }

  predicate Same(mode: Minimize, c: Card, d: Card) {
    match mode
    case LikeCccam => SameCard(c, d)
    case Hops => SameForHops(c, d)
    case Caid => SameForCaid(c, d)
  }

  /** Index of the first card of the list that counts as the same, or its length. */
  function Find(mode: Minimize, list: seq<Card>, c: Card): (k: nat)
    ensures k <= |list|
    ensures k < |list| ==> Same(mode, c, list[k])
    ensures forall i :: 0 <= i < k ==> !Same(mode, c, list[i])
  {
    if list == [] || Same(mode, c, list[0]) then 0 else 1 + Find(mode, list[1..], c)
  }

  /** Removing through an iterator and inserting again: after the predecessor of the
      removed card, or at the end when it was the first. */
  function Replaced(list: seq<Card>, k: nat, c: Card): seq<Card>
    requires k < |list|
  {
    if k == 0 then list[1..] + [c] else list[..k] + [c] + list[k + 1..]
  }

  /** add_card_to_serverlist. Merging of sid lists is left out. */
  function AddCard(mode: Minimize, list: seq<Card>, c: Card, free: bool): seq<Card> {
    var k := Find(mode, list, c);
    if k == |list| then
      list + [if mode == Caid then Entered(c, free) else Taken(c, free)]
    else
      var d := list[k];
      match mode
      case Caid => list[k := Merged(d, c)]
      case Hops =>
        if d.hop > c.hop then Replaced(list, k, Taken(c, free))
        else list[k := d.(grp := d.grp + c.grp, providers := Added(d.providers, c.providers))]
      case LikeCccam => if d.hop > c.hop then Replaced(list, k, Taken(c, free)) else list
  }

  /** A card as the update loop hands it over. */
  datatype Offer = Offer(card: Card, free: bool)

  function AddAll(mode: Minimize, offers: seq<Offer>): seq<Card> {
    if offers == [] then []
    else
      var o := offers[|offers| - 1];
      AddCard(mode, AddAll(mode, offers[..|offers| - 1]), o.card, o.free)
  }

  // Like CCcam

  /** What same_card does not tell apart. */
  datatype Identity = Identity(remoteId: Word, caid: Short, kind: int, sidtab: Option<nat>, serial: Serial, grp: set<nat>,
                               firstNode: Option<NodeId>)

  function IdentityOf(c: Card): Identity {
    Identity(c.remoteId, c.caid, c.kind, c.sidtab, c.serial, c.grp, if c.nodes == [] then None else Some(c.nodes[0]))
  }

  lemma SameCardIsIdentity(c: Card, d: Card)
    ensures SameCard(c, d) <==> IdentityOf(c) == IdentityOf(d)
  {
  }

  lemma {:induction false} FirstNodeStays(nodes: seq<NodeId>)
    ensures AddedNodes([], nodes) == [] <==> nodes == []
    ensures nodes != [] ==> AddedNodes([], nodes)[0] == nodes[0]
  {
    if nodes == [] {
    } else {
      FirstNodeStays(nodes[..|nodes| - 1]);
    }
  }

  lemma TakenIsIdentical(c: Card, free: bool)
    ensures IdentityOf(Taken(c, free)) == IdentityOf(c) && Taken(c, free).hop == c.hop
  {
    hide Added, AddedNodes;
    FirstNodeStays(c.nodes);
  }

  /** Every card of the list is one that was offered, taken over or copied. */
  ghost predicate OnlyOffered(list: seq<Card>, offers: seq<Offer>) {
    forall x :: x in list ==> exists o :: o in offers && x == Taken(o.card, o.free)
  }

  /** For every card offered there is one like it that is no further away. */
  ghost predicate NoFurther(list: seq<Card>, offers: seq<Offer>) {
    forall o :: o in offers ==> HasNoFurther(list, o.card)
  }

  ghost predicate HasNoFurther(list: seq<Card>, c: Card) {
    exists x :: x in list && IdentityOf(x) == IdentityOf(c) && x.hop <= c.hop
  }

  ghost predicate OnePerIdentity(list: seq<Card>) {
    forall i, j :: 0 <= i < j < |list| ==> IdentityOf(list[i]) != IdentityOf(list[j])
  }

  lemma ReplacedHas(list: seq<Card>, k: nat, t: Card)
    requires k < |list|
    ensures forall x :: x in Replaced(list, k, t) ==> x == t || x in list
    ensures t in Replaced(list, k, t)
    ensures forall x :: x in list && x != list[k] ==> x in Replaced(list, k, t)
  {
    var r := Replaced(list, k, t);
    assert t == if k == 0 then r[|list| - 1] else r[k];
    forall x | x in list && x != list[k]
      ensures x in r
    {
      var j :| 0 <= j < |list| && list[j] == x;
      assert x == if k == 0 then r[j - 1] else r[j];
    }
  }

  lemma OnceRotated(u: seq<Card>)
    requires u != [] && OnePerIdentity(u)
    ensures OnePerIdentity(u[1..] + [u[0]])
  {
    hide IdentityOf;
    var r := u[1..] + [u[0]];
    forall i, j | 0 <= i < j < |r|
      ensures IdentityOf(r[i]) != IdentityOf(r[j])
    {
      assert r[i] == u[i + 1];
      if j < |u| - 1 {
        assert r[j] == u[j + 1];
      }
    }
  }

  lemma ReplacedOncePer(list: seq<Card>, k: nat, t: Card)
    requires k < |list| && OnePerIdentity(list) && IdentityOf(t) == IdentityOf(list[k])
    ensures OnePerIdentity(Replaced(list, k, t))
  {
    hide IdentityOf;
    var u := list[k := t];
    assert OnePerIdentity(u);
    OnceRotated(u);
    assert Replaced(list, k, t) == if k == 0 then u[1..] + [u[0]] else u;
  }

  /** The three ways AddCard goes without minimising. */
  ghost predicate LikeCccamTurns(list: seq<Card>, c: Card, t: Card, k: nat, r: seq<Card>) {
    && IdentityOf(t) == IdentityOf(c) && t.hop == c.hop && k <= |list|
    && (k < |list| ==> IdentityOf(list[k]) == IdentityOf(c))
    && (forall i :: 0 <= i < k ==> IdentityOf(list[i]) != IdentityOf(c))
    && r == if k == |list| then list + [t] else if list[k].hop > c.hop then Replaced(list, k, t) else list
  }

  lemma {:induction false} LikeCccamGoes(list: seq<Card>, c: Card, free: bool)
    ensures LikeCccamTurns(list, c, Taken(c, free), Find(LikeCccam, list, c), AddCard(LikeCccam, list, c, free))
  {
    hide IdentityOf, Taken, SameCard;
    TakenIsIdentical(c, free);
    forall j | 0 <= j < |list|
      ensures SameCard(c, list[j]) <==> IdentityOf(c) == IdentityOf(list[j])
    {
      SameCardIsIdentity(c, list[j]);
    }
  }

  lemma TurnsOncePer(list: seq<Card>, c: Card, t: Card, k: nat, r: seq<Card>)
    requires LikeCccamTurns(list, c, t, k, r) && OnePerIdentity(list)
    ensures OnePerIdentity(r)
  {
    hide IdentityOf;
    if k < |list| {
      ReplacedOncePer(list, k, t);
    }
  }

  lemma TurnsNoFurther(list: seq<Card>, c: Card, t: Card, k: nat, r: seq<Card>, x: Card)
    requires LikeCccamTurns(list, c, t, k, r) && (x == c || HasNoFurther(list, x))
    ensures HasNoFurther(r, x)
  {
    hide IdentityOf;
    if k < |list| {
      ReplacedHas(list, k, t);
      assert list[k].hop <= c.hop || t in r;
    } else {
      assert t == r[|list|] && t in r;
      assert forall y :: y in list ==> y in r;
    }
    if x != c {
      var y :| y in list && IdentityOf(y) == IdentityOf(x) && y.hop <= x.hop;
      assert y in r || (y == list[k] && t in r && t.hop < y.hop);
    } else {
      assert t in r || (list[k] in r && list[k].hop <= c.hop);
    }
  }

  lemma TurnsOnlyOffered(list: seq<Card>, t: Card, k: nat, r: seq<Card>, c: Card, x: Card)
    requires LikeCccamTurns(list, c, t, k, r) && x in r
    ensures x == t || x in list
  {
    hide IdentityOf;
    if k < |list| {
      ReplacedHas(list, k, t);
    }
  }

  lemma LikeCccamStep(list: seq<Card>, front: seq<Offer>, o: Offer)
    requires OnlyOffered(list, front) && NoFurther(list, front) && OnePerIdentity(list)
    ensures var r := AddCard(LikeCccam, list, o.card, o.free);
            OnlyOffered(r, front + [o]) && NoFurther(r, front + [o]) && OnePerIdentity(r)
  {
    hide IdentityOf, Taken, AddCard, Find, LikeCccamTurns, HasNoFurther, OnePerIdentity;
    var c, t, k := o.card, Taken(o.card, o.free), Find(LikeCccam, list, o.card);
    var r := AddCard(LikeCccam, list, c, o.free);
    LikeCccamGoes(list, c, o.free);
    TurnsOncePer(list, c, t, k, r);
    forall x | x in r
      ensures exists p :: p in front + [o] && x == Taken(p.card, p.free)
    {
      TurnsOnlyOffered(list, t, k, r, c, x);
      if x == t {
        assert o in front + [o];
      } else {
        var p :| p in front && x == Taken(p.card, p.free);
        assert p in front + [o];
      }
    }
    forall p | p in front + [o]
      ensures HasNoFurther(r, p.card)
    {
      TurnsNoFurther(list, c, t, k, r, p.card);
    }
  }

  /** Without minimising: of the cards that same_card takes for the same, in whatever order and however
      often they are offered, the list has one, as it was offered with the least hop. */
  lemma {:induction false} LikeCccamKeepsTheNearest(offers: seq<Offer>)
    ensures var list := AddAll(LikeCccam, offers);
            OnlyOffered(list, offers) && NoFurther(list, offers) && OnePerIdentity(list)
  {
    hide AddCard, OnlyOffered, NoFurther, OnePerIdentity;
    if offers == [] {
      assert OnlyOffered([], []) && NoFurther([], []) && OnePerIdentity([]) by { hide *; NoneOffered(); }
    } else {
      var front, o := offers[..|offers| - 1], offers[|offers| - 1];
      LikeCccamKeepsTheNearest(front);
      LikeCccamStep(AddAll(LikeCccam, front), front, o);
      assert offers == front + [o];
    }
  }

  lemma NoneOffered()
    ensures OnlyOffered([], []) && NoFurther([], []) && OnePerIdentity([])
  {
  }

  // MINIMIZE_HOPS

  /** What MINIMIZE_HOPS does not tell apart. */
  datatype Class = Class(caid: Short, kind: int, sidtab: Option<nat>, serial: Serial, provs: set<Word>)

  function ClassOf(c: Card): Class {
    Class(c.caid, c.kind, c.sidtab, c.serial, Numbers(c.providers))
  }

  ghost predicate AllDistinct(list: seq<Card>) {
    forall i :: 0 <= i < |list| ==> DistinctProviders(list[i].providers)
  }

  ghost predicate OnePerClass(list: seq<Card>) {
    forall i, j :: 0 <= i < j < |list| ==> ClassOf(list[i]) != ClassOf(list[j])
  }

  /** The list shows class x with hop h. */
  ghost predicate Shows(list: seq<Card>, x: Class, h: int) {
    exists i :: 0 <= i < |list| && ClassOf(list[i]) == x && list[i].hop == h
  }

  ghost predicate ShowsJust(list: seq<Card>, x: Class, hop: Option<int>) {
    forall h :: Shows(list, x, h) <==> hop == Some(h)
  }

  /** The least hop at which a card of class x was offered. */
  function LeastHop(offers: seq<Offer>, x: Class): Option<int> {
    if offers == [] then None
    else LesserHop(LeastHop(offers[..|offers| - 1], x), offers[|offers| - 1].card, x)
  }

  function LesserHop(least: Option<int>, c: Card, x: Class): Option<int> {
    if ClassOf(c) == x && (least.None? || c.hop < least.value) then Some(c.hop) else least
  }

  /** h is the least hop at which a card of class x was offered. */
  ghost predicate LeastOffered(offers: seq<Offer>, x: Class, h: int) {
    && (exists i :: 0 <= i < |offers| && ClassOf(offers[i].card) == x && offers[i].card.hop == h)
    && (forall i :: 0 <= i < |offers| && ClassOf(offers[i].card) == x ==> h <= offers[i].card.hop)
  }

  lemma SameForHopsIsClass(c: Card, d: Card)
    requires DistinctProviders(c.providers) && DistinctProviders(d.providers)
    ensures SameForHops(c, d) <==> ClassOf(c) == ClassOf(d)
  {
    hide Numbers, EqualProviders;
    EqualProvidersIsSetEquality(c.providers, d.providers);
  }

  lemma TakenKeepsClass(c: Card, free: bool)
    requires DistinctProviders(c.providers)
    ensures var t := Taken(c, free);
            ClassOf(t) == ClassOf(c) && DistinctProviders(t.providers) && t.hop == c.hop
  {
    hide Numbers, Added;
    AddedIsUnion([], c.providers);
    NoNumbers();
    AddedStaysDistinct([], c.providers);
  }

  lemma MergeKeepsClass(d: Card, c: Card)
    requires ClassOf(c) == ClassOf(d) && DistinctProviders(d.providers)
    ensures ClassOf(d.(grp := d.grp + c.grp, providers := Added(d.providers, c.providers))) == ClassOf(d)
    ensures DistinctProviders(Added(d.providers, c.providers))
  {
    hide Numbers, Added;
    AddedIsUnion(d.providers, c.providers);
    AddedStaysDistinct(d.providers, c.providers);
  }

  /** What the list shows for each class. */
  ghost predicate HopsInvariant(list: seq<Card>) {
    AllDistinct(list) && OnePerClass(list)
  }

  /** r shows c's class with c's hop, and every other class like list. */
  ghost predicate ShowsInstead(r: seq<Card>, list: seq<Card>, c: Card) {
    forall x, h :: Shows(r, x, h) <==> (if x == ClassOf(c) then h == c.hop as int else Shows(list, x, h))
  }

  lemma UpdatedShows(list: seq<Card>, k: nat, c: Card)
    requires HopsInvariant(list) && k < |list|
    requires ClassOf(c) == ClassOf(list[k]) && DistinctProviders(c.providers)
    ensures HopsInvariant(list[k := c])
    ensures ShowsInstead(list[k := c], list, c)
  {
    hide ClassOf, DistinctProviders;
    var u := list[k := c];
    assert u[k] == c;
    forall x, h: int
      ensures Shows(u, x, h) <==> (if x == ClassOf(c) then h == c.hop else Shows(list, x, h))
    {
      if Shows(list, x, h) && x != ClassOf(c) {
        var i :| 0 <= i < |list| && ClassOf(list[i]) == x && list[i].hop == h;
        assert u[i] == list[i];
      }
    }
  }

  /** Taking the first card out and putting it back at the end shows the same. */
  lemma RotatedShows(u: seq<Card>)
    requires HopsInvariant(u) && u != []
    ensures HopsInvariant(u[1..] + [u[0]])
    ensures forall x, h: int :: Shows(u[1..] + [u[0]], x, h) <==> Shows(u, x, h)
  {
    hide ClassOf, DistinctProviders;
    var r := u[1..] + [u[0]];
    forall x, h: int
      ensures Shows(r, x, h) <==> Shows(u, x, h)
    {
      if Shows(u, x, h) {
        var i :| 0 <= i < |u| && ClassOf(u[i]) == x && u[i].hop == h;
        assert r[if i == 0 then |u| - 1 else i - 1] == u[i];
      }
      if Shows(r, x, h) {
        var m :| 0 <= m < |r| && ClassOf(r[m]) == x && r[m].hop == h;
        assert u[if m == |u| - 1 then 0 else m + 1] == r[m];
      }
    }
  }

  lemma ReplacedShows(list: seq<Card>, k: nat, c: Card)
    requires HopsInvariant(list) && k < |list|
    requires ClassOf(c) == ClassOf(list[k]) && DistinctProviders(c.providers)
    ensures HopsInvariant(Replaced(list, k, c))
    ensures ShowsInstead(Replaced(list, k, c), list, c)
  {
    hide ClassOf, DistinctProviders, HopsInvariant, Shows;
    UpdatedShows(list, k, c);
    var u := list[k := c];
    if k == 0 {
      RotatedShows(u);
      assert u[1..] + [u[0]] == Replaced(list, k, c);
    } else {
      assert u == Replaced(list, k, c);
    }
  }

  lemma AddCardHops(list: seq<Card>, c: Card, free: bool)
    requires HopsInvariant(list) && DistinctProviders(c.providers)
    ensures HopsInvariant(AddCard(Hops, list, c, free))
    ensures forall x, hop :: ShowsJust(list, x, hop) ==> ShowsJust(AddCard(Hops, list, c, free), x, LesserHop(hop, c, x))
  {
    hide ClassOf, DistinctProviders, SameForHops, Added, Copied, Shows;
    var k, r, t := Find(Hops, list, c), AddCard(Hops, list, c, free), Taken(c, free);
    forall i | 0 <= i < |list|
      ensures SameForHops(c, list[i]) <==> ClassOf(list[i]) == ClassOf(c)
    {
      SameForHopsIsClass(c, list[i]);
    }
    TakenKeepsClass(c, free);
    if k == |list| {
      AppendedShows(list, t);
    } else {
      OnlyOne(list, k);
      var d := list[k];
      MergeKeepsClass(d, c);
      ReplacedShows(list, k, t);
      UpdatedShows(list, k, d.(grp := d.grp + c.grp, providers := Added(d.providers, c.providers)));
    }
  }

  lemma OnlyOne(list: seq<Card>, k: nat)
    requires OnePerClass(list) && k < |list|
    ensures ShowsJust(list, ClassOf(list[k]), Some(list[k].hop))
  {
    hide ClassOf;
  }

  lemma AppendedShows(list: seq<Card>, t: Card)
    requires HopsInvariant(list) && DistinctProviders(t.providers)
    requires forall i :: 0 <= i < |list| ==> ClassOf(list[i]) != ClassOf(t)
    ensures HopsInvariant(list + [t])
    ensures ShowsInstead(list + [t], list, t)
    ensures forall h :: !Shows(list, ClassOf(t), h)
  {
    hide ClassOf, DistinctProviders;
    var r := list + [t];
    assert r[|list|] == t;
    forall x, h: int
      ensures Shows(r, x, h) <==> (if x == ClassOf(t) then h == t.hop else Shows(list, x, h))
    {
      if Shows(list, x, h) {
        var i :| 0 <= i < |list| && ClassOf(list[i]) == x && list[i].hop == h;
        assert r[i] == list[i];
      }
    }
  }

  lemma {:induction false} HopsShowsLeast(offers: seq<Offer>, x: Class)
    requires forall i :: 0 <= i < |offers| ==> DistinctProviders(offers[i].card.providers)
    ensures HopsInvariant(AddAll(Hops, offers))
    ensures ShowsJust(AddAll(Hops, offers), x, LeastHop(offers, x))
  {
    hide ClassOf, DistinctProviders, AddCard, LesserHop;
    if offers == [] {
    } else {
      var front, o := offers[..|offers| - 1], offers[|offers| - 1];
      hide ShowsJust, HopsInvariant;
      HopsShowsLeast(front, x);
      AddCardHops(AddAll(Hops, front), o.card, o.free);
    }
  }

  lemma {:induction false} LeastHopIsLeast(offers: seq<Offer>, x: Class, h: int)
    ensures LeastHop(offers, x) == Some(h) <==> LeastOffered(offers, x, h)
    ensures LeastHop(offers, x) == None <==> forall i :: 0 <= i < |offers| ==> ClassOf(offers[i].card) != x
  {
    hide ClassOf;
    if offers == [] {
    } else {
      var front, o, least := offers[..|offers| - 1], offers[|offers| - 1], LeastHop(offers[..|offers| - 1], x);
      LeastHopIsLeast(front, x, h);
      if least.Some? {
        LeastHopIsLeast(front, x, least.value);
      }
    }
  }

  /** MINIMIZE_HOPS over any sequence of cards without repeated providers: one card per
      class that was offered, at the least hop offered for it. */
  lemma {:induction false} HopsKeepsTheNearest(offers: seq<Offer>)
    requires forall i :: 0 <= i < |offers| ==> DistinctProviders(offers[i].card.providers)
    ensures OnePerClass(AddAll(Hops, offers))
    ensures forall x, h: int :: Shows(AddAll(Hops, offers), x, h) <==> LeastOffered(offers, x, h)
  {
    hide ClassOf, DistinctProviders, AddAll, Shows, LeastOffered;
    HopsShowsLeast(offers, Class(0, 0, None, seq(8, _ => 0), {}));
    forall x, h: int
      ensures Shows(AddAll(Hops, offers), x, h) <==> LeastOffered(offers, x, h)
    {
      HopsShowsLeast(offers, x);
      LeastHopIsLeast(offers, x, h);
    }
  }

  /** The order in which cards are offered, and how often, does not change what is shown. */
  lemma {:induction false} OrderDoesNotMatter(a: seq<Offer>, b: seq<Offer>)
    requires forall i :: 0 <= i < |a| ==> DistinctProviders(a[i].card.providers)
    requires forall o :: o in a <==> o in b
    ensures forall x, h: int :: Shows(AddAll(Hops, a), x, h) <==> Shows(AddAll(Hops, b), x, h)
  {
    hide ClassOf, DistinctProviders, AddAll, Shows, LeastOffered;
    forall i | 0 <= i < |b|
      ensures DistinctProviders(b[i].card.providers)
    {
      assert b[i] in a;
    }
    HopsKeepsTheNearest(a);
    HopsKeepsTheNearest(b);
    forall x, h: int
      ensures LeastOffered(a, x, h) <==> LeastOffered(b, x, h)
    {
      LeastOfSameSet(a, b, x, h);
      LeastOfSameSet(b, a, x, h);
    }
  }

  lemma LeastOfSameSet(a: seq<Offer>, b: seq<Offer>, x: Class, h: int)
    requires forall o :: o in a <==> o in b
    ensures LeastOffered(a, x, h) ==> LeastOffered(b, x, h)
  {
    hide ClassOf;
    if LeastOffered(a, x, h) {
      var i :| 0 <= i < |a| && ClassOf(a[i].card) == x && a[i].card.hop == h;
      assert a[i] in b;
      forall j | 0 <= j < |b| && ClassOf(b[j].card) == x
        ensures h <= b[j].card.hop
      {
        assert b[j] in a;
      }
    }
  }

  /** A card that is offered twice is listed once if and only if it repeats no provider: the copy
      in the list has no repetitions, so a card that has some never counts as the same. */
  lemma {:induction false} OfferedTwice(c: Card)
    ensures var list := AddAll(Hops, [Offer(c, false), Offer(c, false)]);
            if DistinctProviders(c.providers) then |list| == 1 else list == [Copied(c), Copied(c)]
  {
    hide Added, AddedNodes, Numbers;
    var o, e := Offer(c, false), Copied(c);
    assert [o, o][..1] == [o] && [o][..0] == [];
    assert AddAll(Hops, []) == [] && AddAll(Hops, [o]) == [e];
    RepetitionsShrink(c.providers);
    if DistinctProviders(c.providers) {
      EqualProvidersIsSetEquality(c.providers, e.providers);
      assert SameForHops(c, [e][0]);
    } else {
      assert !SameForHops(c, [e][0]);
      assert AddCard(Hops, [e], c, false) == [e, e];
    }
  }

  /** However often and in whatever order these cards are offered, each class is listed once. */
  ghost predicate ListsEachClassOnce(cards: set<Card>) {
    forall offers: seq<Offer> :: (forall o :: o in offers ==> !o.free && o.card in cards) ==>
      OnePerClass(AddAll(Hops, offers))
  }

  /** MINIMIZE_HOPS lists each class of the cards readers have got once, if and only if none of
      them repeats a provider. */
  lemma {:induction false} HopsListsOnceExactlyWhen(cards: set<Card>)
    ensures ListsEachClassOnce(cards) <==> forall c :: c in cards ==> DistinctProviders(c.providers)
  {
    hide AddAll, ClassOf, OnePerClass, DistinctProviders;
    if forall c :: c in cards ==> DistinctProviders(c.providers) {
      forall offers: seq<Offer> | forall o :: o in offers ==> !o.free && o.card in cards
        ensures OnePerClass(AddAll(Hops, offers))
      {
        assert forall i :: 0 <= i < |offers| ==> offers[i] in offers;
        HopsKeepsTheNearest(offers);
      }
    } else {
      var c :| c in cards && !DistinctProviders(c.providers);
      var offers := [Offer(c, false), Offer(c, false)];
      OfferedTwice(c);
      TwiceTheSame(Copied(c));
      assert forall o :: o in offers ==> !o.free && o.card in cards;
    }
  }

  /** With repetitions the order matters, too: c, which names p twice, counts as the same as d with p
      and q once it comes second, and takes its place; coming first it does not. */
  lemma {:induction false} OrderMattersForRepetitions(c: Card, d: Card, p: Provider, q: Provider)
    requires SameCard2(c, d) && p.prov != q.prov && c.hop < d.hop
    requires c.providers == [p, p] && d.providers == [p, q]
    ensures Shows(AddAll(Hops, [Offer(c, false), Offer(d, false)]), ClassOf(d), d.hop)
    ensures !Shows(AddAll(Hops, [Offer(d, false), Offer(c, false)]), ClassOf(d), d.hop)
  {
    hide AddedNodes, Added;
    var x, y, e, f := Offer(c, false), Offer(d, false), Copied(c), Copied(d);
    assert [x, y][..1] == [x] && [y, x][..1] == [y] && [x][..0] == [] && [y][..0] == [];
    assert AddAll(Hops, []) == [] && AddAll(Hops, [x]) == [e] && AddAll(Hops, [y]) == [f];
    RepetitionsShrink(c.providers);
    RepetitionsShrink(d.providers);
    assert p in c.providers && p in d.providers && q in d.providers;
    assert c.providers[0].prov == c.providers[1].prov;
    assert DistinctProviders(d.providers);
    assert !SameForHops(d, [e][0]);
    assert AddAll(Hops, [x, y]) == [e, f];
    assert ClassOf([e, f][1]) == ClassOf(d);
    assert c.providers[0].prov in Numbers(f.providers) && c.providers[1].prov in Numbers(f.providers);
    assert SameForHops(c, [f][0]);
    assert AddAll(Hops, [y, x]) == [e];
    assert q.prov in Numbers(d.providers) && q.prov !in Numbers(c.providers);
  }

  lemma TwiceTheSame(c: Card)
    ensures !OnePerClass([c, c])
  {
    hide ClassOf;
    assert ClassOf([c, c][0]) == ClassOf([c, c][1]);
  }

  // Groups under MINIMIZE_HOPS

  /** The list shows class x, if at all, with these groups. */
  ghost predicate ShowsGroups(list: seq<Card>, x: Class, grp: set<nat>) {
    forall i :: 0 <= i < |list| && ClassOf(list[i]) == x ==> list[i].grp == grp
  }

  /** A nearer card brings its own groups, any other one adds them. */
  function LeastGroups(offers: seq<Offer>, x: Class): set<nat> {
    if offers == [] then {}
    else
      var front, c := offers[..|offers| - 1], offers[|offers| - 1].card;
      NextGroups(LeastGroups(front, x), LeastHop(front, x), c, x)
  }

  function NextGroups(grp: set<nat>, least: Option<int>, c: Card, x: Class): set<nat> {
    if ClassOf(c) != x then grp
    else if least.None? || c.hop < least.value then c.grp
    else grp + c.grp
  }

  lemma AddCardGroups(list: seq<Card>, c: Card, free: bool, x: Class, least: Option<int>, grp: set<nat>)
    requires HopsInvariant(list) && DistinctProviders(c.providers)
    requires ShowsJust(list, x, least) && ShowsGroups(list, x, grp)
    ensures ShowsGroups(AddCard(Hops, list, c, free), x, NextGroups(grp, least, c, x))
  {
    hide ClassOf, DistinctProviders, SameForHops, Added, AddedNodes;
    var k, r, t := Find(Hops, list, c), AddCard(Hops, list, c, free), Taken(c, free);
    forall i | 0 <= i < |list|
      ensures SameForHops(c, list[i]) <==> ClassOf(list[i]) == ClassOf(c)
    {
      SameForHopsIsClass(c, list[i]);
    }
    TakenKeepsClass(c, free);
    assert t.grp == c.grp;
    if k == |list| {
      AppendedShows(list, t);
      if x == ClassOf(c) {
        forall h: int
          ensures least != Some(h)
        {
          assert !Shows(list, x, h);
        }
      }
    } else {
      OnlyOne(list, k);
      MergeKeepsClass(list[k], c);
      if x == ClassOf(c) {
        assert Shows(list, x, list[k].hop);
        assert least == Some(list[k].hop as int);
        assert list[k].grp == grp;
      }
      forall i | 0 <= i < |r| && ClassOf(r[i]) == x
        ensures r[i].grp == NextGroups(grp, least, c, x)
      {
        if x != ClassOf(c) {
          assert r[i] in list;
        }
      }
    }
  }

  lemma {:induction false} HopsShowsGroups(offers: seq<Offer>, x: Class)
    requires forall i :: 0 <= i < |offers| ==> DistinctProviders(offers[i].card.providers)
    ensures ShowsGroups(AddAll(Hops, offers), x, LeastGroups(offers, x))
  {
    hide ClassOf, DistinctProviders, AddCard, NextGroups, LeastHop, ShowsJust, HopsInvariant;
    if offers == [] {
    } else {
      var front, o := offers[..|offers| - 1], offers[|offers| - 1];
      HopsShowsGroups(front, x);
      HopsShowsLeast(front, x);
      AddCardGroups(AddAll(Hops, front), o.card, o.free, x, LeastHop(front, x), LeastGroups(front, x));
    }
  }

  /** g came with a card of class x when the least hop had been reached. */
  ghost predicate Counted(offers: seq<Offer>, x: Class, g: nat) {
    exists i :: 0 <= i < |offers| && ClassOf(offers[i].card) == x && g in offers[i].card.grp && LeastReached(offers, x, i)
  }

  /** No card of class x behind offer i is nearer than all up to it. */
  predicate LeastReached(offers: seq<Offer>, x: Class, i: nat)
    requires i < |offers|
  {
    LeastHop(offers[..i + 1], x) == LeastHop(offers, x)
  }

  lemma {:induction false} LeastOnlyFalls(offers: seq<Offer>, x: Class, n: nat)
    requires n <= |offers| && LeastHop(offers[..n], x).Some?
    ensures LeastHop(offers, x).Some? && LeastHop(offers, x).value <= LeastHop(offers[..n], x).value
  {
    hide ClassOf;
    if n < |offers| {
      var front := offers[..|offers| - 1];
      assert front[..n] == offers[..n];
      LeastOnlyFalls(front, x, n);
    } else {
      assert offers[..n] == offers;
    }
  }

  lemma {:induction false} ReachedOfOneMore(front: seq<Offer>, o: Offer, x: Class, i: nat)
    requires i < |front| && ClassOf(front[i].card) == x
    ensures LeastHop(front, x).Some?
    ensures LeastReached(front + [o], x, i) <==>
              LeastReached(front, x, i) && (ClassOf(o.card) == x ==> LeastHop(front, x).value <= o.card.hop)
  {
    hide ClassOf;
    var all, upto := front + [o], front[..i + 1];
    assert all[..|front|] == front && all[..i + 1] == upto;
    assert upto[..i] == front[..i] && upto[i] == front[i];
    LeastOnlyFalls(front, x, i + 1);
  }

  lemma LastReached(front: seq<Offer>, o: Offer, x: Class)
    ensures LeastReached(front + [o], x, |front|)
  {
    hide LeastHop;
    var all := front + [o];
    assert all[..|all|] == all;
  }

  lemma {:induction false} CountedOfOneMore(front: seq<Offer>, o: Offer, x: Class, g: nat)
    ensures var all, least := front + [o], LeastHop(front, x);
            Counted(all, x, g) <==>
              if ClassOf(o.card) != x then Counted(front, x, g)
              else g in o.card.grp || (least.Some? && least.value <= o.card.hop && Counted(front, x, g))
  {
    hide ClassOf, LeastHop, LeastReached;
    var all, n := front + [o], |front|;
    LastReached(front, o, x);
    assert all[n] == o && forall i :: 0 <= i < n ==> all[i] == front[i];
    if Counted(front, x, g) {
      var i :| 0 <= i < n && ClassOf(front[i].card) == x && g in front[i].card.grp && LeastReached(front, x, i);
      ReachedOfOneMore(front, o, x, i);
      assert ClassOf(all[i].card) == x;
    }
    if Counted(all, x, g) {
      var i :| 0 <= i <= n && ClassOf(all[i].card) == x && g in all[i].card.grp && LeastReached(all, x, i);
      if i < n {
        ReachedOfOneMore(front, o, x, i);
      }
    }
  }

  lemma {:induction false} LeastGroupsAreCounted(offers: seq<Offer>, x: Class, g: nat)
    ensures g in LeastGroups(offers, x) <==> Counted(offers, x, g)
    ensures LeastHop(offers, x).None? ==> LeastGroups(offers, x) == {}
  {
    hide ClassOf, Counted;
    if offers == [] {
      assert !Counted(offers, x, g) by { NothingCounted(x, g); }
    } else {
      var front, o := offers[..|offers| - 1], offers[|offers| - 1];
      LeastGroupsAreCounted(front, x, g);
      assert offers == front + [o];
      CountedOfOneMore(front, o, x, g);
    }
  }

  lemma NothingCounted(x: Class, g: nat)
    ensures !Counted([], x, g)
  {
  }

  /** The groups a class is shown for are exactly those that came with one of its cards when
      its least hop had been reached; those of a card that is replaced by a nearer one go. */
  lemma {:induction false} HopsKeepsGroupsOfTheNearest(offers: seq<Offer>, k: nat, g: nat)
    requires forall i :: 0 <= i < |offers| ==> DistinctProviders(offers[i].card.providers)
    requires k < |AddAll(Hops, offers)|
    ensures var c := AddAll(Hops, offers)[k]; g in c.grp <==> Counted(offers, ClassOf(c), g)
  {
    hide ClassOf, DistinctProviders, AddAll, Counted, LeastGroups;
    var x := ClassOf(AddAll(Hops, offers)[k]);
    HopsShowsGroups(offers, x);
    LeastGroupsAreCounted(offers, x, g);
  }

  // MINIMIZE_CAID

  /** Some card of the list stands for c: same class, its providers and its groups. */
  ghost predicate Covered(list: seq<Card>, c: Card) {
    exists i :: 0 <= i < |list| && Covers(list[i], c)
  }

  ghost predicate Covers(d: Card, c: Card) {
    SameCard2(c, d) && Numbers(c.providers) <= Numbers(d.providers) && c.grp <= d.grp
  }

  /** Every provider and group of d was offered with a card of d's class. */
  ghost predicate Backed(offers: seq<Offer>, d: Card) {
    && (forall p :: p in Numbers(d.providers) ==> OfferedWith(offers, d, p))
    && (forall g :: g in d.grp ==> OfferedIn(offers, d, g))
  }

  ghost predicate OfferedWith(offers: seq<Offer>, d: Card, p: Word) {
    exists i :: 0 <= i < |offers| && SameCard2(offers[i].card, d) && p in Numbers(offers[i].card.providers)
  }

  ghost predicate OfferedIn(offers: seq<Offer>, d: Card, g: nat) {
    exists i :: 0 <= i < |offers| && SameCard2(offers[i].card, d) && g in offers[i].card.grp
  }

  ghost predicate FewProviders(list: seq<Card>) {
    forall i :: 0 <= i < |list| ==> |list[i].providers| <= CS_MAXPROV
  }

  lemma EnteredStandsFor(c: Card, free: bool)
    ensures var t := Entered(c, free);
            SameCard2(c, t) && Numbers(t.providers) == Numbers(c.providers) && t.grp == c.grp
            && |t.providers| <= |c.providers|
  {
    hide Numbers, Added;
    AddedIsUnion([], c.providers);
    NoNumbers();
    MergedSize([], c.providers);
  }

  /** A merge yields exactly the union of providers and groups, and no more providers
      than the caller computed before deciding to merge. */
  lemma MergedStandsForBoth(d: Card, c: Card)
    ensures var m := Merged(d, c);
            SameCard2(d, m) && Numbers(m.providers) == Numbers(d.providers) + Numbers(c.providers)
            && m.grp == d.grp + c.grp
    ensures SameForCaid(c, d) ==> |Merged(d, c).providers| <= CS_MAXPROV
  {
    hide Numbers, Added;
    AddedIsUnion(d.providers, c.providers);
    MergedSize(d.providers, c.providers);
  }

  /** AddCard in this mode merges one card or appends one. */
  lemma {:induction false} AddCardCaid(list: seq<Card>, c: Card, free: bool)
    ensures var r, k := AddCard(Caid, list, c, free), Find(Caid, list, c);
            r == if k == |list| then list + [Entered(c, free)] else list[k := Merged(list[k], c)]
  {
    hide Added, Same, CountShared;
  }

  lemma CaidStep(list: seq<Card>, c: Card, free: bool)
    ensures var r := AddCard(Caid, list, c, free);
            Covered(r, c) && forall x :: Covered(list, x) ==> Covered(r, x)
    ensures FewProviders(list) && |c.providers| <= CS_MAXPROV ==> FewProviders(AddCard(Caid, list, c, free))
  {
    hide Numbers, AddCard, Entered, Merged;
    var r, k := AddCard(Caid, list, c, free), Find(Caid, list, c);
    AddCardCaid(list, c, free);
    EnteredStandsFor(c, free);
    if k < |list| {
      MergedStandsForBoth(list[k], c);
    }
    assert Covers(r[k], c);
    forall x | Covered(list, x)
      ensures Covered(r, x)
    {
      var i :| 0 <= i < |list| && Covers(list[i], x);
      assert Covers(r[i], x);
    }
  }

  /** MINIMIZE_CAID over any sequence of cards: whatever was offered, a card of the list
      still stands for it, and no list card outgrows the limit if no offer did. */
  lemma {:induction false} CaidKeepsCovered(offers: seq<Offer>)
    ensures forall i :: 0 <= i < |offers| ==> Covered(AddAll(Caid, offers), offers[i].card)
    ensures (forall i :: 0 <= i < |offers| ==> |offers[i].card.providers| <= CS_MAXPROV) ==>
              FewProviders(AddAll(Caid, offers))
  {
    hide Covered, AddCard;
    if offers == [] {
    } else {
      var front, o := offers[..|offers| - 1], offers[|offers| - 1];
      CaidKeepsCovered(front);
      assert forall i :: 0 <= i < |front| ==> front[i] == offers[i];
      CaidStep(AddAll(Caid, front), o.card, o.free);
    }
  }

  lemma BackedByMore(front: seq<Offer>, o: Offer, d: Card)
    requires Backed(front, d)
    ensures Backed(front + [o], d)
  {
    hide Numbers, SameCard2;
    var all := front + [o];
    forall p | p in Numbers(d.providers)
      ensures OfferedWith(all, d, p)
    {
      var i :| 0 <= i < |front| && SameCard2(front[i].card, d) && p in Numbers(front[i].card.providers);
      assert all[i] == front[i];
    }
    forall g | g in d.grp
      ensures OfferedIn(all, d, g)
    {
      var i :| 0 <= i < |front| && SameCard2(front[i].card, d) && g in front[i].card.grp;
      assert all[i] == front[i];
    }
  }

  lemma BackedByLast(front: seq<Offer>, o: Offer, d: Card)
    requires SameCard2(o.card, d) && Numbers(d.providers) == Numbers(o.card.providers) && d.grp == o.card.grp
    ensures Backed(front + [o], d)
  {
    hide Numbers, SameCard2;
    assert (front + [o])[|front|] == o;
  }

  lemma BackedUnion(offers: seq<Offer>, d: Card, e: Card, m: Card)
    requires Backed(offers, d) && Backed(offers, e) && SameCard2(d, m) && SameCard2(e, m)
    requires Numbers(m.providers) == Numbers(d.providers) + Numbers(e.providers) && m.grp == d.grp + e.grp
    ensures Backed(offers, m)
  {
    hide Numbers;
    forall p | p in Numbers(m.providers)
      ensures OfferedWith(offers, m, p)
    {
      assert OfferedWith(offers, d, p) || OfferedWith(offers, e, p);
    }
    forall g | g in m.grp
      ensures OfferedIn(offers, m, g)
    {
      assert OfferedIn(offers, d, g) || OfferedIn(offers, e, g);
    }
  }

  /** And nothing else is in the list: every provider and group a list card carries was
      offered with a card of its class. */
  lemma {:induction false} CaidInventsNothing(offers: seq<Offer>)
    ensures forall k :: 0 <= k < |AddAll(Caid, offers)| ==> Backed(offers, AddAll(Caid, offers)[k])
  {
    hide Backed, AddCard, Entered, Merged, Numbers;
    if offers == [] {
    } else {
      var front, o := offers[..|offers| - 1], offers[|offers| - 1];
      CaidInventsNothing(front);
      var list, r := AddAll(Caid, front), AddAll(Caid, offers);
      AddCardCaid(list, o.card, o.free);
      assert offers == front + [o];
      forall k | 0 <= k < |list|
        ensures Backed(offers, list[k])
      {
        BackedByMore(front, o, list[k]);
      }
      EnteredStandsFor(o.card, o.free);
      BackedByLast(front, o, Entered(o.card, o.free));
      BackedByLast(front, o, o.card);
      var k := Find(Caid, list, o.card);
      if k < |list| {
        MergedStandsForBoth(list[k], o.card);
        BackedUnion(offers, list[k], o.card, Merged(list[k], o.card));
      }
    }
  }

  // MINIMIZE_CAID and the nodes cards came through

  /** Cards that came through nodes all get entries of their own. */
  predicate NoneMerged(offers: seq<Offer>) {
    offers == []
    || var front, c := offers[..|offers| - 1], offers[|offers| - 1].card;
       NoneMerged(front) && (c.nodes == [] || Find(Caid, AddAll(Caid, front), c) == |AddAll(Caid, front)|)
  }

  lemma {:induction false} CopiesKeepSomeNode(nodes: seq<NodeId>)
    ensures AddedNodes([], nodes) == [] <==> nodes == []
  {
    if nodes == [] {
    } else {
      CopiesKeepSomeNode(nodes[..|nodes| - 1]);
    }
  }

  /** The entry that stands for a card keeps the nodes it came through if and only if it is a new
      one: a merge forgets them. */
  lemma {:induction false} EntryKeepsNodesExactlyWhen(list: seq<Card>, c: Card)
    requires c.nodes != []
    ensures var r, k := AddCard(Caid, list, c, false), Find(Caid, list, c);
            k < |r| && Covers(r[k], c) && (r[k].nodes == AddedNodes([], c.nodes) <==> k == |list|)
  {
    hide Numbers, Added, Same, AddedNodes, Covers;
    AddCardCaid(list, c, false);
    CopiesKeepSomeNode(c.nodes);
    EntryCovers(list, c);
  }

  lemma {:induction false} EntryCovers(list: seq<Card>, c: Card)
    ensures var r, k := AddCard(Caid, list, c, false), Find(Caid, list, c);
            k < |r| && Covers(r[k], c)
  {
    hide Numbers, AddCard, Entered, Merged;
    var k := Find(Caid, list, c);
    AddCardCaid(list, c, false);
    EnteredStandsFor(c, false);
    if k < |list| {
      MergedStandsForBoth(list[k], c);
    }
  }

  /** Cards as readers have them: copied, and come through some nodes. */
  ghost predicate AllFromPeers(offers: seq<Offer>) {
    forall i :: 0 <= i < |offers| ==> !offers[i].free && offers[i].card.nodes != []
  }

  ghost predicate NodesKept(list: seq<Card>, offers: seq<Offer>) {
    |list| <= |offers| && forall k :: 0 <= k < |list| ==> list[k].nodes == AddedNodes([], offers[k].card.nodes)
  }

  lemma {:induction false} NodesKeptOrForgotten(offers: seq<Offer>)
    requires AllFromPeers(offers)
    ensures var list := AddAll(Caid, offers);
            && |list| <= |offers| && (NoneMerged(offers) <==> |list| == |offers|)
            && (NoneMerged(offers) ==> NodesKept(list, offers))
            && (!NoneMerged(offers) ==> exists k :: 0 <= k < |list| && list[k].nodes == [])
  {
    hide AddedNodes, Added, AddCard, Find;
    if offers == [] {
    } else {
      var front, o := offers[..|offers| - 1], offers[|offers| - 1];
      assert forall i :: 0 <= i < |front| ==> front[i] == offers[i];
      NodesKeptOrForgotten(front);
      var before, after := AddAll(Caid, front), AddAll(Caid, offers);
      AddCardCaid(before, o.card, false);
      var k := Find(Caid, before, o.card);
      FindInRange(before, o.card);
      if k < |before| {
        assert after[k].nodes == [];
      } else if !NoneMerged(front) {
        var j :| 0 <= j < |before| && before[j].nodes == [];
        assert after[j] == before[j];
      }
    }
  }

  lemma {:induction false} FindInRange(list: seq<Card>, c: Card)
    ensures Find(Caid, list, c) <= |list|
  {
  }

  /** Over any sequence of cards from readers, MINIMIZE_CAID keeps the nodes every card came through
      if and only if it merges none, that is, if its list is as long as the sequence. */
  lemma {:induction false} CaidKeepsNodesExactlyWhen(offers: seq<Offer>)
    requires AllFromPeers(offers)
    ensures NodesKept(AddAll(Caid, offers), offers) <==> |AddAll(Caid, offers)| == |offers|
  {
    hide AddAll, AddedNodes, NoneMerged;
    NodesKeptOrForgotten(offers);
    if NodesKept(AddAll(Caid, offers), offers) && !NoneMerged(offers) {
      var k :| 0 <= k < |AddAll(Caid, offers)| && AddAll(Caid, offers)[k].nodes == [];
      CopiesKeepSomeNode(offers[k].card.nodes);
      assert false;
    }
  }
}
