/** Control words spreading through a network of cache-exchange peers, over any topology and any
    interleaving; messages may get lost, be repeated and overtake each other
    (oscam/module-camd35-cacheex.c:1069-1132, 1437-1459, 1545-1546,
    oscam/module-cccam-cacheex.c:1045-1114, oscam/module-cacheex.c:1295-1317). */
module Gossip {
  import opened Bytes
  import opened PushWire

  /** push_chk, for a client with the given hop limit and peer id, to which the word has or has
      not been pushed before */
  predicate PushCheck(f: Framing, er: Request, maxHop: Int8, peer: Option<NodeId>, pushed: bool) {
    && |er.nodes| < maxHop
    && peer.Some? && (f == Cccam ==> peer.value != Zeros(8))
    && peer.value !in er.nodes
    && !pushed
  }

  /** push_chk with its search through the node list */
  method CheckPush(f: Framing, er: Request, maxHop: Int8, peer: Option<NodeId>, pushed: bool) returns (ok: bool)
    ensures ok <==> PushCheck(f, er, maxHop, peer, pushed)
  {
    if peer.None? || (f == Cccam && peer.value == Zeros(8)) {
      return false;
    }
    if |er.nodes| >= maxHop {
      return false;
    }
    for i := 0 to |er.nodes|
      invariant peer.value !in er.nodes[..i]
    {
      if er.nodes[i] == peer.value {
        return false;
      }
    }
    ok := !pushed;
  }

  type Link = (NodeId, NodeId)

  /** A request in a node's cache; none was the source of one it answered itself. */
  datatype Cached = Cached(er: Request, src: Option<NodeId>)

  datatype Frame = Frame(src: NodeId, dst: NodeId, framing: Framing, body: bytes)

  /** What nodes have cached, frames sent, peer ids known, which peers a cached word has been pushed
      to (the pushout_client list of a CW, of which a cache has one for each hash and word) and, as
      a record, the requests nodes have answered themselves. */
  datatype Net = Net(cache: map<NodeId, seq<Cached>>, wire: seq<Frame>, learned: map<Link, NodeId>, pushed: set<(Link, CwKey)>,
                     made: set<(NodeId, Request)>)

  /** The hop limit each node has set for each peer */
  type Limits = (NodeId, NodeId) -> Int8

  /** `stale` is what the receiver's buffer holds behind the frame. */
  datatype Step =
    | Make(node: NodeId, er: Request)
    | Learn(node: NodeId, peer: NodeId)
    | Push(node: NodeId, dst: NodeId, k: nat, framing: Framing)
    | Receive(k: nat, passes: bool, stale: bytes)

  function CacheOf(net: Net, node: NodeId): seq<Cached> {
    if node in net.cache then net.cache[node] else []
  }

  function PeerId(net: Net, node: NodeId, peer: NodeId): Option<NodeId> {
    if (node, peer) in net.learned then Some(net.learned[(node, peer)]) else None
  }

  /** add_cache takes no request without a hash. */
  predicate Cacheable(er: Request) {
    er.cspHash != 0
  }

  /** cacheex_push_out: push_chk, which remembers the push, then push_out */
  function Pushed(net: Net, limits: Limits, node: NodeId, dst: NodeId, k: nat, f: Framing): Net {
    var cache := CacheOf(net, node);
    if k >= |cache| then net
    else
      var mark := ((node, dst), KeyOf(cache[k].er));
      if !PushCheck(f, cache[k].er, limits(node, dst), PeerId(net, node, dst), mark in net.pushed) then net
      else SentOn(net.(pushed := net.pushed + {mark}), node, dst, cache[k].er, f)
  }

  function SentOn(net: Net, node: NodeId, dst: NodeId, er: Request, f: Framing): Net {
    match PushOut(f, er, node)
    case None => net
    case Some(body) => net.(wire := net.wire + [Frame(node, dst, f, body)])
  }

  function ReceivedBy(net: Net, limits: Limits, m: Frame, passes: bool, stale: bytes): Net {
    match PushIn(m.framing, m.body + stale, limits(m.dst, m.src), PeerId(net, m.dst, m.src), passes)
    case None => net
    case Some(a) =>
      net.(cache := if Cacheable(a.er) then net.cache[m.dst := CacheOf(net, m.dst) + [Cached(a.er, Some(m.src))]] else net.cache,
           learned := if a.peer.Some? then net.learned[(m.dst, m.src) := a.peer.value] else net.learned)
  }

  /** A step that cannot be taken changes nothing. */
  function Apply(net: Net, limits: Limits, s: Step): Net {
    match s
    case Make(node, er) =>
      if er.nodes != [] || !Cacheable(er) then net
      else net.(cache := net.cache[node := CacheOf(net, node) + [Cached(er, None)]], made := net.made + {(node, er)})
    case Learn(node, peer) => net.(learned := net.learned[(node, peer) := peer])
    case Push(node, dst, k, f) => Pushed(net, limits, node, dst, k, f)
    case Receive(k, passes, stale) => if k < |net.wire| then ReceivedBy(net, limits, net.wire[k], passes, stale) else net
  }

  /** A step puts a frame on the wire exactly if it pushes something cached and found, or passed on as not
      found yet, which has come through fewer nodes than the peer allows, to a peer whose id is known
      and through which it has not come, for the first time. */
  lemma PushedExactlyWhen(net: Net, limits: Limits, node: NodeId, dst: NodeId, k: nat, f: Framing)
    ensures var next, cache, peer := Apply(net, limits, Push(node, dst, k, f)), CacheOf(net, node), PeerId(net, node, dst);
            && (|next.wire| > |net.wire|
                <==> && k < |cache| && |cache[k].er.nodes| < limits(node, dst)
                     && peer.Some? && peer.value !in cache[k].er.nodes && (f == Cccam ==> peer.value != Zeros(8))
                     && ((node, dst), KeyOf(cache[k].er)) !in net.pushed
                     && (cache[k].er.rc < E_NOTFOUND || ToInt8(cache[k].er.rc) in {E_FOUND, E_UNHANDLED}))
            && (|next.wire| > |net.wire| ==> next.wire == net.wire + [next.wire[|net.wire|]] && next.wire[|net.wire|].dst == dst)
  {
    hide PushHead, PushTail;
  }

  function Run(limits: Limits, steps: seq<Step>): Net {
    if steps == [] then Net(map[], [], map[], {}, {})
    else Apply(Run(limits, steps[..|steps| - 1]), limits, steps[|steps| - 1])
  }

  // Invariant

  /** What no hop changes: what the request is about, the control word, and a cycle time the
      wire can carry. */
  predicate SameAnswer(a: Request, b: Request) {
    && a.srvid == b.srvid && a.caid == b.caid && a.prid == b.prid && a.md5 == b.md5 && a.cspHash == b.cspHash && a.cw == b.cw
    && (0 < b.cycleTime < 128 && b.nextCycle < 2 ==> a.cycleTime == b.cycleTime && a.nextCycle == b.nextCycle)
  }

  function Origin(node: NodeId, er: Request): NodeId {
    if er.nodes == [] then node else er.nodes[|er.nodes| - 1]
  }

  ghost predicate Answered(made: set<(NodeId, Request)>, origin: NodeId, er: Request) {
    exists o :: (origin, o) in made && SameAnswer(er, o)
  }

  /** A request at a node: its list is a path without cycles from the node that answered it. */
  ghost predicate RequestGood(made: set<(NodeId, Request)>, node: NodeId, er: Request) {
    NoDuplicates(er.nodes) && node !in er.nodes && Answered(made, Origin(node, er), er)
  }

  ghost predicate CachedGood(made: set<(NodeId, Request)>, limits: Limits, node: NodeId, c: Cached) {
    && RequestGood(made, node, c.er)
    && (c.src.None? ==> c.er.nodes == [])
    && (c.src.Some? ==> c.er.nodes != [] && c.er.nodes[0] == c.src.value && |c.er.nodes| <= limits(node, c.src.value))
  }

  ghost predicate FrameGood(made: set<(NodeId, Request)>, m: Frame) {
    exists er :: Carries(made, m, er)
  }

  ghost predicate Carries(made: set<(NodeId, Request)>, m: Frame, er: Request) {
    && RequestGood(made, m.src, er) && m.dst != m.src && m.dst !in er.nodes && |er.nodes| < 127
    && Pushable(SentRc(er.rc)) && PushOut(m.framing, er, m.src) == Some(m.body)
  }

  ghost predicate Good(net: Net, limits: Limits) {
    && (forall n, i :: n in net.cache && 0 <= i < |net.cache[n]| ==> CachedGood(net.made, limits, n, net.cache[n][i]))
    && (forall i :: 0 <= i < |net.wire| ==> FrameGood(net.made, net.wire[i]))
    && (forall n, m :: (n, m) in net.learned ==> net.learned[(n, m)] == m)
  }

  /** No node is its own peer. */
  predicate NoSelfLink(s: Step) {
    s.Push? ==> s.node != s.dst
  }

  lemma MoreMade(made: set<(NodeId, Request)>, more: set<(NodeId, Request)>, node: NodeId, er: Request)
    requires made <= more && RequestGood(made, node, er)
    ensures RequestGood(more, node, er)
  {
    hide SameAnswer;
    var o :| (Origin(node, er), o) in made && SameAnswer(er, o);
    assert (Origin(node, er), o) in more;
  }

  lemma OneMoreHop(made: set<(NodeId, Request)>, m: Frame, er: Request)
    requires Carries(made, m, er)
    ensures var r := Canonical(er, m.src);
            RequestGood(made, m.dst, r) && r.nodes == [m.src] + er.nodes && r.nodes[0] == m.src
  {
    hide PushOut;
    var r := Canonical(er, m.src);
    var o :| (Origin(m.src, er), o) in made && SameAnswer(er, o);
    CycleExactlyWhen(er.cycleTime, er.nextCycle);
    assert SameAnswer(r, o);
    assert Origin(m.dst, r) == Origin(m.src, er);
    NoDuplicatesFront(m.src, er.nodes);
  }

  lemma NoDuplicatesFront<T>(x: T, xs: seq<T>)
    requires NoDuplicates(xs) && x !in xs
    ensures NoDuplicates([x] + xs)
  {
    var all := [x] + xs;
    forall i, j | 0 <= i < j < |all|
      ensures all[i] != all[j]
    {
      assert all[j] == xs[j - 1] && all[j] in xs;
      if i > 0 {
        assert all[i] == xs[i - 1];
      }
    }
  }

  lemma MakeGood(net: Net, limits: Limits, node: NodeId, er: Request)
    requires Good(net, limits) && er.nodes == [] && Cacheable(er)
    ensures Good(Apply(net, limits, Make(node, er)), limits)
  {
    hide RequestGood, PushOut, SameAnswer;
    var next := Apply(net, limits, Make(node, er));
    MadeIsGood(next.made, node, er);
    forall n, i | n in next.cache && 0 <= i < |next.cache[n]|
      ensures CachedGood(next.made, limits, n, next.cache[n][i])
    {
      if n != node || i < |CacheOf(net, node)| {
        MoreMade(net.made, next.made, n, net.cache[n][i].er);
      }
    }
    forall i | 0 <= i < |next.wire|
      ensures FrameGood(next.made, next.wire[i])
    {
      assert FrameGood(net.made, net.wire[i]);
      var e :| Carries(net.made, net.wire[i], e);
      MoreMade(net.made, next.made, net.wire[i].src, e);
      assert Carries(next.made, net.wire[i], e);
    }
  }

  lemma MadeIsGood(made: set<(NodeId, Request)>, node: NodeId, er: Request)
    requires (node, er) in made && er.nodes == []
    ensures RequestGood(made, node, er)
  {
    assert SameAnswer(er, er);
  }

  lemma PushGood(net: Net, limits: Limits, node: NodeId, dst: NodeId, k: nat, f: Framing)
    requires Good(net, limits) && node != dst
    ensures Good(Pushed(net, limits, node, dst, k, f), limits)
  {
    hide RequestGood, PushOut, SameAnswer;
    var next, cache := Pushed(net, limits, node, dst, k, f), CacheOf(net, node);
    if |next.wire| > |net.wire| {
      assert CachedGood(net.made, limits, node, cache[k]);
      assert PeerId(net, node, dst) == Some(dst);
      SentIsPushable(f, cache[k].er, node);
      assert Carries(net.made, next.wire[|net.wire|], cache[k].er);
    }
  }

  lemma SentIsPushable(f: Framing, er: Request, own: NodeId)
    ensures PushOut(f, er, own).Some? ==> Pushable(SentRc(er.rc))
  {
  }

  lemma ReceiveGood(net: Net, limits: Limits, k: nat, passes: bool, stale: bytes)
    requires Good(net, limits) && k < |net.wire|
    ensures Good(ReceivedBy(net, limits, net.wire[k], passes, stale), limits)
  {
    hide RequestGood, PushOut, PushIn, SameAnswer, Canonical;
    var m := net.wire[k];
    var er :| Carries(net.made, m, er);
    var maxHop, peer := limits(m.dst, m.src), PeerId(net, m.dst, m.src);
    if passes && |er.nodes| + 1 <= maxHop {
      PushArrives(m.framing, er, m.src, stale, maxHop, peer);
      OneMoreHop(net.made, m, er);
      assert Canonical(er, m.src).nodes == [m.src] + er.nodes;
    } else if |er.nodes| + 1 > maxHop {
      LongListIsRefused(m.framing, er, m.src, stale, maxHop, peer, passes);
    } else {
      FilterRefuses(m.framing, m.body + stale, maxHop, peer);
    }
  }

  lemma FilterRefuses(f: Framing, b: bytes, maxHop: Int8, peer: Option<NodeId>)
    ensures PushIn(f, b, maxHop, peer, false) == None
  {
  }

  lemma StepGood(net: Net, limits: Limits, s: Step)
    requires Good(net, limits) && NoSelfLink(s)
    ensures Good(Apply(net, limits, s), limits)
  {
    hide CachedGood, FrameGood, Pushed, ReceivedBy;
    match s {
      case Make(node, er) =>
        if er.nodes == [] && Cacheable(er) {
          MakeGood(net, limits, node, er);
        }
      case Learn(node, peer) =>
      case Push(node, dst, k, f) => PushGood(net, limits, node, dst, k, f);
      case Receive(k, passes, stale) =>
        if k < |net.wire| {
          ReceiveGood(net, limits, k, passes, stale);
        }
    }
  }

  lemma {:induction false} RunGood(limits: Limits, steps: seq<Step>)
    requires forall i :: 0 <= i < |steps| ==> NoSelfLink(steps[i])
    ensures Good(Run(limits, steps), limits)
  {
    hide Apply, NoSelfLink;
    if steps == [] {
    } else {
      var front := steps[..|steps| - 1];
      assert forall i :: 0 <= i < |front| ==> front[i] == steps[i];
      RunGood(limits, front);
      StepGood(Run(limits, front), limits, steps[|steps| - 1]);
    }
  }

  /** Over every run, a request a node has accepted came along a path without cycles: the list
      starts with the peer that pushed it, ends with the node that answered it, never names the
      node itself, keeps to the receiver's limit, and the answer is unchanged. */
  lemma {:induction false} PushesTravelSimplePaths(limits: Limits, steps: seq<Step>, node: NodeId, c: Cached)
    requires forall i :: 0 <= i < |steps| ==> NoSelfLink(steps[i])
    requires c in CacheOf(Run(limits, steps), node) && c.src.Some?
    ensures c.er.nodes != [] && c.er.nodes[0] == c.src.value && |c.er.nodes| <= limits(node, c.src.value)
    ensures NoDuplicates(c.er.nodes) && node !in c.er.nodes
    ensures exists o :: (c.er.nodes[|c.er.nodes| - 1], o) in Run(limits, steps).made && SameAnswer(c.er, o)
  {
    RunGood(limits, steps);
    var cache := CacheOf(Run(limits, steps), node);
    var i :| 0 <= i < |cache| && cache[i] == c;
    assert CachedGood(Run(limits, steps).made, limits, node, c);
  }

  // One hop

  /** A node answers a request, knows a peer and pushes to it, and the peer reads the frame. */
  function OneHop(node: NodeId, dst: NodeId, er: Request, f: Framing, stale: bytes): seq<Step> {
    [Make(node, er), Learn(node, dst), Push(node, dst, 0, f), Receive(0, true, stale)]
  }

  lemma RunOfFour(limits: Limits, a: Step, b: Step, c: Step, d: Step)
    ensures Run(limits, [a, b, c, d])
            == Apply(Apply(Apply(Apply(Net(map[], [], map[], {}, {}), limits, a), limits, b), limits, c), limits, d)
  {
    hide Apply;
    assert [a, b, c, d][..3] == [a, b, c] && [a, b, c][..2] == [a, b] && [a, b][..1] == [a] && [a][..0] == [];
    assert Run(limits, []) == Net(map[], [], map[], {}, {});
    assert Run(limits, [a]) == Apply(Run(limits, []), limits, a);
    assert Run(limits, [a, b]) == Apply(Run(limits, [a]), limits, b);
    assert Run(limits, [a, b, c]) == Apply(Run(limits, [a, b]), limits, c);
  }

  /** An answer reaches the peer exactly if it has a hash, was found or is still open, and both hop limits allow
      one hop; and then as it was, with its maker's node. */
  lemma OneHopExactlyWhen(limits: Limits, node: NodeId, dst: NodeId, er: Request, f: Framing, stale: bytes)
    requires node != dst && er.nodes == [] && (f == Cccam ==> dst != Zeros(8))
    ensures var got := CacheOf(Run(limits, OneHop(node, dst, er, f, stale)), dst);
            && (got != [] <==> er.cspHash != 0 && (er.rc < E_NOTFOUND || ToInt8(er.rc) in {E_FOUND, E_UNHANDLED})
                               && limits(node, dst) > 0 && limits(dst, node) > 0)
            && (got != [] ==> got == [Cached(Canonical(er, node), Some(node))] && Canonical(er, node).nodes == [node])
  {
    hide PushOut, PushIn, Canonical, Run, RequestGood;
    var net := Net(map[], [], map[], {}, {});
    var s := OneHop(node, dst, er, f, stale);
    RunOfFour(limits, s[0], s[1], s[2], s[3]);
    var maxHop := limits(dst, node);
    SentIsPushable(f, er, node);
    PushableIsSent(f, er, node);
    if Pushable(SentRc(er.rc)) {
      if maxHop > 0 {
        PushArrives(f, er, node, stale, maxHop, None);
        CanonicalNodes(er, node);
      } else {
        LongListIsRefused(f, er, node, stale, maxHop, None, true);
      }
    }
  }

  lemma PushableIsSent(f: Framing, er: Request, own: NodeId)
    ensures Pushable(SentRc(er.rc)) ==> PushOut(f, er, own).Some?
    ensures Pushable(SentRc(er.rc)) <==> er.rc < E_NOTFOUND || ToInt8(er.rc) in {E_FOUND, E_UNHANDLED}
  {
    hide PushHead, PushTail;
  }

  lemma CanonicalNodes(er: Request, own: NodeId)
    ensures Canonical(er, own).nodes == [own] + er.nodes && Canonical(er, own).cspHash == er.cspHash
  {
  }

  /** No node ever keeps a word without a hash, be it its own or a peer's. */
  lemma {:induction false} NothingWithoutHash(limits: Limits, steps: seq<Step>, node: NodeId, k: nat)
    requires k < |CacheOf(Run(limits, steps), node)|
    ensures CacheOf(Run(limits, steps), node)[k].er.cspHash != 0
  {
    hide PushIn, PushOut, PushCheck;
    if steps == [] {
    } else {
      var front := steps[..|steps| - 1];
      if k < |CacheOf(Run(limits, front), node)| {
        NothingWithoutHash(limits, front, node, k);
      }
    }
  }

  /** So no request passes through more nodes than there are. */
  lemma {:induction false} PathsFitTheNetwork(limits: Limits, steps: seq<Step>, node: NodeId, c: Cached, nodes: set<NodeId>)
    requires forall i :: 0 <= i < |steps| ==> NoSelfLink(steps[i])
    requires c in CacheOf(Run(limits, steps), node) && c.src.Some?
    requires Elements(c.er.nodes) <= nodes && node in nodes
    ensures |c.er.nodes| < |nodes|
  {
    PushesTravelSimplePaths(limits, steps, node, c);
    SubsetBound(c.er.nodes, nodes - {node});
  }

  /** Peer ids, whether asked for or taken from the first push, are those of the peers. */
  lemma {:induction false} PeersAreKnownRightly(limits: Limits, steps: seq<Step>, node: NodeId, peer: NodeId)
    requires forall i :: 0 <= i < |steps| ==> NoSelfLink(steps[i])
    ensures PeerId(Run(limits, steps), node, peer) in {None, Some(peer)}
  {
    RunGood(limits, steps);
  }

  // How often one word is pushed

  /** The frames that carry a word. */
  function Carriers(wire: seq<Frame>, key: CwKey): set<nat> {
    set i | 0 <= i < |wire| && |wire[i].body| >= 56 && KeyIn(wire[i].body) == key
  }

  function LinkOf(m: Frame): Link {
    (m.src, m.dst)
  }

  /** Every frame is marked as pushed, and no two carry the same word over the same link. */
  ghost predicate PushedOnce(net: Net) {
    && (forall i :: 0 <= i < |net.wire| ==>
          |net.wire[i].body| >= 56 && (LinkOf(net.wire[i]), KeyIn(net.wire[i].body)) in net.pushed)
    && (forall i, j :: 0 <= i < j < |net.wire| && LinkOf(net.wire[i]) == LinkOf(net.wire[j]) ==>
          KeyIn(net.wire[i].body) != KeyIn(net.wire[j].body))
  }

  lemma StepPushesOnce(net: Net, limits: Limits, s: Step)
    requires PushedOnce(net)
    ensures PushedOnce(Apply(net, limits, s))
  {
    hide KeyIn, PushOut, PushIn;
    if s.Push? && s.k < |CacheOf(net, s.node)| {
      var er := CacheOf(net, s.node)[s.k].er;
      if PushOut(s.framing, er, s.node).Some? {
        SentIsPushable(s.framing, er, s.node);
        KeyArrives(s.framing, er, s.node);
      }
    }
  }

  lemma {:induction false} RunPushesOnce(limits: Limits, steps: seq<Step>)
    ensures PushedOnce(Run(limits, steps))
  {
    hide Apply;
    if steps == [] {
    } else {
      RunPushesOnce(limits, steps[..|steps| - 1]);
      StepPushesOnce(Run(limits, steps[..|steps| - 1]), limits, steps[|steps| - 1]);
    }
  }

  lemma {:induction false} OnePerLink(wire: seq<Frame>, frames: set<nat>, key: CwKey, links: set<Link>)
    requires forall i :: i in frames ==>
               i < |wire| && |wire[i].body| >= 56 && KeyIn(wire[i].body) == key && LinkOf(wire[i]) in links
    requires forall i, j :: i in frames && j in frames && i < j ==> LinkOf(wire[i]) != LinkOf(wire[j])
    ensures |frames| <= |links|
  {
    hide KeyIn, LinkOf;
    if frames == {} {
    } else {
      var i :| i in frames;
      forall j | j in frames - {i}
        ensures LinkOf(wire[j]) in links - {LinkOf(wire[i])}
      {
        assert LinkOf(wire[j]) != LinkOf(wire[i]) by {
          if j < i {
            assert j in frames && i in frames;
          } else {
            assert i < j;
          }
        }
      }
      OnePerLink(wire, frames - {i}, key, links - {LinkOf(wire[i])});
    }
  }

  /** Over every run, with messages lost, repeated and out of order, the frames that carry one
      hash and word are no more than the links they went over: propagation of a word ends. */
  lemma {:induction false} PropagationEnds(limits: Limits, steps: seq<Step>, key: CwKey, links: set<Link>)
    requires forall i :: i in Carriers(Run(limits, steps).wire, key) ==> LinkOf(Run(limits, steps).wire[i]) in links
    ensures |Carriers(Run(limits, steps).wire, key)| <= |links|
  {
    hide Run, KeyIn;
    RunPushesOnce(limits, steps);
    var wire := Run(limits, steps).wire;
    var frames := Carriers(wire, key);
    forall i, j | i in frames && j in frames && i < j
      ensures LinkOf(wire[i]) != LinkOf(wire[j])
    {
      assert KeyIn(wire[i].body) == KeyIn(wire[j].body);
    }
    OnePerLink(wire, frames, key, links);
  }
}
