/** What the cycle checker keeps over every run of checks and cleanings. */
module CycleRuns {
  import opened Bytes
  import opened CycleCheck
  import PushWire

  // Stages

  /** The stage is 0..4, and exactly stage 3 knows which half comes next. */
  predicate WellStaged(e: Entry) {
    && 0 <= e.stage <= 4 && 0 <= e.next <= 2
    && (e.stage == 3 <==> e.next < 2)
    && e.slot < RING
  }

  ghost predicate AllStaged(list: seq<Entry>) {
    forall i :: 0 <= i < |list| ==> WellStaged(list[i])
  }

  lemma NextHalfIsKnown(e: Entry, cw: ControlWord)
    requires e.next == 2
    ensures NextHalf(e, cw) in {0, 1, 2}
    ensures NextHalf(e, cw) == 0 <==> e.cw[8..] == cw[8..] && e.cw[..8] != cw[..8] && Filled(cw)
    ensures NextHalf(e, cw) == 1 <==> e.cw[..8] == cw[..8] && e.cw[8..] != cw[8..] && Filled(cw)
  {
    hide Compare;
  }

  /** Learning keeps the pairing of stage and next half, and changes nothing else that
      identifies the entry. */
  lemma LearnKeeps(e: Entry, r: Request, verdict: int)
    requires WellStaged(e)
    ensures var j := Learn(e, r, verdict);
            && WellStaged(j.entry)
            && j.entry.ring == e.ring && j.entry.slot == e.slot && j.entry.channel == e.channel
            && (e.stage == 3 ==> j.entry.stage == 3 && j.entry.next == e.next && j.store && j.verdict == verdict)
            && (verdict in {IGNORED, LEARNING} ==> j.verdict in {IGNORED, LEARNING, LEARNING_HALF})
  {
    hide NextHalf, Int16;
    if e.next == 2 {
      NextHalfIsKnown(e, r.cw);
    }
  }

  lemma JudgeKeeps(c: Config, e: Entry, r: Request)
    requires WellStaged(e)
    ensures var j := Judge(c, e, r);
            WellStaged(j.entry) && j.entry.ring == e.ring && j.entry.slot == e.slot && j.entry.channel == e.channel
  {
    hide Learn, FindInRing, SameRequest, SameBytes;
    LearnKeeps(Fallen(c, e, r), r, IGNORED);
    if e.next < 2 {
      LearnKeeps(e.(next := 1 - e.next), r, CYCLE_OK);
    }
    LearnKeeps(e, r, LEARNING);
  }

  // The ring against the history of stored requests

  /** The last requests of h, at most RING of them, are in the ring; other slots are blank. */
  ghost predicate RingHolds(e: Entry, h: seq<Stored>) {
    && h != [] && e.slot == (|h| - 1) % RING
    && (forall i :: 0 <= i < |h| && |h| <= i + RING ==> e.ring[i % RING] == h[i])
    && (forall j :: |h| <= j < RING ==> e.ring[j] == Blank())
  }

  /** The request was already stored among the last 15 of h. */
  ghost predicate RecentlyStored(r: Request, h: seq<Stored>) {
    exists i :: 0 <= i < |h| && |h| <= i + RING && SameRequest(r, h[i])
  }

  lemma {:induction false} RingSearchIsHistorySearch(e: Entry, h: seq<Stored>, r: Request)
    requires RingHolds(e, h)
    ensures FindInRing(r, e.ring, 0) < RING <==> RecentlyStored(r, h)
  {
    hide SameRequest, FindInRing;
    var j := FindInRing(r, e.ring, 0);
    if j < RING {
      if |h| <= j {
        BlankIsNoRequest(r);
        assert false;
      }
      var i := InLastTurn(|h|, j);
      assert h[i] == e.ring[j];
    }
    if RecentlyStored(r, h) {
      var i :| 0 <= i < |h| && |h| <= i + RING && SameRequest(r, h[i]);
      assert SameRequest(r, e.ring[i % RING]);
    }
  }

  lemma BlankIsNoRequest(r: Request)
    ensures !SameRequest(r, Blank())
  {
  }

  /** Slot j was last written by the request whose number is congruent to j. */
  lemma InLastTurn(n: nat, j: nat) returns (i: nat)
    requires j < RING && j < n
    ensures i < n && n <= i + RING && i % RING == j
  {
    i := n - 1 - (n - 1 - j) % RING;
    assert (n - 1 - j) == RING * ((n - 1 - j) / RING) + (n - 1 - j) % RING;
    assert i == RING * ((n - 1 - j) / RING) + j;
  }

  lemma NewRing(c: Config, r: Request)
    ensures RingHolds(NewEntry(c, r), [Record(r)])
  {
  }

  lemma UpdatedRing(e: Entry, h: seq<Stored>, r: Request)
    requires RingHolds(e, h)
    ensures RingHolds(Updated(e, r), h + [Record(r)])
  {
    var u, g, n := Updated(e, r), h + [Record(r)], |h|;
    assert u.slot == n % RING;
    forall i | 0 <= i < |g| && |g| <= i + RING
      ensures u.ring[i % RING] == g[i]
    {
      if i < n {
        NotSameSlot(i, n);
      }
    }
  }

  lemma NotSameSlot(i: nat, n: nat)
    requires i < n < i + RING
    ensures i % RING != n % RING
  {
  }

  // Counter

  lemma {:induction false} CurrentConcat(a: seq<Entry>, b: seq<Entry>)
    ensures Current(a + b) == Current(a) + Current(b)
  {
    if b == [] {
      assert a + b == a;
    } else {
      CurrentConcat(a, b[..|b| - 1]);
      assert (a + b)[..|a + b| - 1] == a + b[..|b| - 1];
    }
  }

  lemma {:induction false} CurrentOfMarked(list: seq<Entry>, k: nat)
    requires k < |list|
    ensures Current(MarkOld(list, k)) == Current(list) - (if list[k].retired then 0 else 1)
  {
    hide Current;
    var e, f := list[k], list[k].(retired := true);
    assert list == list[..k] + [e] + list[k + 1..];
    assert MarkOld(list, k) == list[..k] + [f] + list[k + 1..];
    CurrentConcat(list[..k] + [e], list[k + 1..]);
    CurrentConcat(list[..k], [e]);
    CurrentConcat(list[..k] + [f], list[k + 1..]);
    CurrentConcat(list[..k], [f]);
    CurrentOne(e);
    CurrentOne(f);
  }

  lemma CurrentOne(e: Entry)
    ensures Current([e]) == if e.retired then 0 else 1
  {
    assert [e][..0] == [];
  }

  lemma {:induction false} CurrentPushed(e: Entry, list: seq<Entry>)
    requires !e.retired
    ensures Current([e] + list) == 1 + Current(list)
  {
    CurrentConcat([e], list);
    CurrentOne(e);
  }

  // The invariant of every reachable state

  ghost predicate Good(s: State) {
    && Aligned(s)
    && AllStaged(s.list)
    && (forall i :: 0 <= i < |s.list| ==> RingHolds(s.list[i], s.history[i]))
    && s.size == Current(s.list)
  }

  lemma RetiredKeeps(e: Entry, h: seq<Stored>)
    requires WellStaged(e) && RingHolds(e, h)
    ensures WellStaged(e.(retired := true)) && RingHolds(e.(retired := true), h)
  {
  }

  lemma CheckKeepsGood(c: Config, s: State, r: Request)
    requires Good(s)
    ensures Good(Check(c, s, r).0)
  {
    hide Judge, RingHolds, FindEntry, ValidCw, Updated, Current, WellStaged, NewEntry, Matches;
    var k, t := FindEntry(s.list, r), Check(c, s, r).0;
    if ValidCw(r) && k == |s.list| {
      NewRing(c, r);
      NewIsStaged(c, r);
      CurrentPushed(NewEntry(c, r), s.list);
    } else if ValidCw(r) {
      var e := s.list[k];
      RetiredKeeps(e, s.history[k]);
      CurrentOfMarked(s.list, k);
      var j := Judge(c, e, r);
      JudgeKeeps(c, e, r);
      RingOnlyDepends(e, j.entry, s.history[k]);
      UpdatedRing(j.entry, s.history[k], r);
      UpdatedIsStaged(j.entry, r);
      CurrentPushed(Updated(j.entry, r), MarkOld(s.list, k));
    }
  }

  lemma NewIsStaged(c: Config, r: Request)
    ensures WellStaged(NewEntry(c, r)) && !NewEntry(c, r).retired
  {
  }

  lemma UpdatedIsStaged(e: Entry, r: Request)
    requires WellStaged(e)
    ensures WellStaged(Updated(e, r)) && !Updated(e, r).retired
  {
  }

  lemma RingOnlyDepends(e: Entry, f: Entry, h: seq<Stored>)
    requires RingHolds(e, h) && f.ring == e.ring && f.slot == e.slot
    ensures RingHolds(f, h)
  {
  }

  lemma CleanKeepsGood(c: Config, s: State, now: int)
    requires Good(s)
    ensures Good(Clean(c, s, now))
  {
    hide RingHolds, WellStaged, FirstStale, Current;
    var k := FirstStale(c, s.list, now);
    assert s.list == s.list[..k] + s.list[k..];
    CurrentConcat(s.list[..k], s.list[k..]);
  }

  // Runs

  datatype Event = Checked(r: Request) | Cleaned(now: int)

  function After(c: Config, s: State, e: Event): State
    requires Aligned(s)
  {
    match e
    case Checked(r) => Check(c, s, r).0
    case Cleaned(now) => Clean(c, s, now)
  }

  lemma AlignedStays(c: Config, s: State, e: Event)
    requires Aligned(s)
    ensures Aligned(After(c, s, e))
  {
    hide Judge, ValidCw, Updated;
  }

  function Run(c: Config, s: State, events: seq<Event>): (t: State)
    requires Aligned(s)
    ensures Aligned(t)
    decreases events
  {
    if events == [] then s
    else
      AlignedStays(c, s, events[0]);
      Run(c, After(c, s, events[0]), events[1..])
  }

  const EMPTY: State := State([], 0, 0, [])

  /** In every reachable state every entry has a stage in 0..4, exactly stage 3 knows the
      next half, the ring holds the last min(15, k) stored requests of its channel, and
      the counter is the number of entries that are not marked old. */
  lemma {:induction false} RunsStayGood(c: Config, s: State, events: seq<Event>)
    requires Good(s)
    ensures Good(Run(c, s, events))
    decreases events
  {
    hide Good, Check, Clean;
    if events == [] {
    } else {
      match events[0] {
        case Checked(r) => CheckKeepsGood(c, s, r);
        case Cleaned(now) => CleanKeepsGood(c, s, now);
      }
      GoodIsAligned(s);
      GoodIsAligned(After(c, s, events[0]));
      RunsStayGood(c, After(c, s, events[0]), events[1..]);
    }
  }

  lemma GoodIsAligned(s: State)
    requires Good(s)
    ensures Aligned(s)
  {
  }

  lemma EmptyIsGood()
    ensures Good(EMPTY)
  {
  }

  // The bad-cycle verdict

  /** When exactly a request is judged a bad cycle. */
  ghost predicate IsBad(c: Config, s: State, r: Request)
    requires Aligned(s)
  {
    var k := FindEntry(s.list, r);
    && ValidCw(r) && k < |s.list|
    && !(c.useCacheEx && HasCacheExInfo(r))
    && InWindow(s.list[k], r) && s.list[k].cw != r.cw
    && !CycleGood(c, s.list[k], r)
    && !RecentlyStored(r, s.history[k])
    && !(c.allowBadFromFallback && r.fixedFallback)
  }

  /** The ring search is a search of the stored history: the verdict "bad cycle" is given
      exactly to a fully learned channel's wrong word that is not among its last 15 stored
      requests, so a repeated request is never called bad. */
  lemma BadExactlyWhen(c: Config, s: State, r: Request)
    requires Good(s)
    ensures Check(c, s, r).1 == BAD_CYCLE <==> IsBad(c, s, r)
  {
    hide ValidCw, FindEntry, FindInRing, CycleGood, Learn, SameRequest, Fallen, RecentlyStored, RingHolds, WellStaged, Matches;
    var k := FindEntry(s.list, r);
    if ValidCw(r) && k < |s.list| {
      var e := s.list[k];
      RingSearchIsHistorySearch(e, s.history[k], r);
      LearnIsNeverBad(c, e, r);
    }
  }

  lemma LearnIsNeverBad(c: Config, e: Entry, r: Request)
    requires WellStaged(e)
    ensures e.next < 2 ==> Learn(e.(next := 1 - e.next), r, CYCLE_OK).verdict == CYCLE_OK
    ensures Learn(Fallen(c, e, r), r, IGNORED).verdict in {IGNORED, LEARNING, LEARNING_HALF}
    ensures Learn(e, r, LEARNING).verdict in {IGNORED, LEARNING, LEARNING_HALF}
  {
    hide Learn, Fallen;
    if e.next < 2 {
      LearnKeeps(e.(next := 1 - e.next), r, CYCLE_OK);
    }
    FallenIsStaged(c, e, r);
    LearnKeeps(Fallen(c, e, r), r, IGNORED);
    LearnKeeps(e, r, LEARNING);
  }

  lemma FallenIsStaged(c: Config, e: Entry, r: Request)
    requires WellStaged(e)
    ensures WellStaged(Fallen(c, e, r))
  {
  }

  /** A request whose hash was among the last 15 stored for its channel is never bad. */
  lemma {:induction false} RepeatedIsNeverBad(c: Config, s: State, r: Request, i: nat)
    requires Good(s) && FindEntry(s.list, r) < |s.list|
    requires var h := s.history[FindEntry(s.list, r)];
             i < |h| && |h| <= i + RING && Filled(r.md5) && h[i].md5 == r.md5
    ensures Check(c, s, r).1 != BAD_CYCLE
  {
    hide Good, Check, Filled, InWindow, CycleGood;
    GoodIsAligned(s);
    BadExactlyWhen(c, s, r);
    assert SameRequest(r, s.history[FindEntry(s.list, r)][i]);
  }

  // Accepted cycles

  /** Verdict 0: exactly one half changed; the half that `next` named stayed; the new
      entry on top names the other one. */
  lemma {:induction false} AcceptedChangesOneHalf(c: Config, s: State, r: Request)
    requires Good(s) && Check(c, s, r).1 == CYCLE_OK
    ensures var k := FindEntry(s.list, r); var t := Check(c, s, r).0;
            && k < |s.list| && s.list[k].next < 2 && s.list[k].stage == 3
            && Half(r.cw, s.list[k].next) == Half(s.list[k].cw, s.list[k].next)
            && Half(r.cw, 1 - s.list[k].next) != Half(s.list[k].cw, 1 - s.list[k].next)
            && |t.list| == |s.list| + 1
            && t.list[0].cw == r.cw && t.list[0].next == 1 - s.list[k].next && t.list[0].stage == 3
            && Matches(t.list[0], r)
  {
    hide ValidCw, FindEntry, FindInRing, Learn, SameRequest, Fallen, RingHolds, Matches, SameBytes;
    var k := FindEntry(s.list, r);
    if ValidCw(r) && k < |s.list| {
      var e := s.list[k];
      LearnIsNeverBad(c, e, r);
      if InWindow(e, r) && CycleGood(c, e, r) {
        LearnKeeps(e.(next := 1 - e.next), r, CYCLE_OK);
        HalvesMakeWord(e.cw, r.cw);
        FoundHasChannel(s.list, r);
        UpdatedMatches(Learn(e.(next := 1 - e.next), r, CYCLE_OK).entry, r);
      }
    }
  }

  /** A request is told what to announce exactly with verdict 0: the half the new entry names, and the
      learned cycle time if it fits. */
  lemma {:induction false} ToldExactlyWhenAccepted(c: Config, s: State, r: Request)
    requires Good(s)
    ensures var told, t := Announcement(c, s, r), Check(c, s, r).0; var k := FindEntry(s.list, r);
            && (told.Some? <==> Check(c, s, r).1 == CYCLE_OK)
            && (told.Some? ==> k < |s.list| && |t.list| > 0 && told.value.next == t.list[0].next)
            && (told.Some? && told.value.cycletime.Some? ==> told.value.cycletime.value == s.list[k].cycletime % 256)
  {
    hide ValidCw, FindEntry, FindInRing, Learn, SameRequest, Fallen, RingHolds, Matches, SameBytes;
    var k := FindEntry(s.list, r);
    if ValidCw(r) && k < |s.list| {
      var e := s.list[k];
      LearnIsNeverBad(c, e, r);
      if InWindow(e, r) && CycleGood(c, e, r) {
        LearnKeeps(e.(next := 1 - e.next), r, CYCLE_OK);
      }
    }
  }

  /** A cycle time that is announced survives the push to other nodes, with the half that is next. */
  lemma {:induction false} AnnouncementSurvivesPush(c: Config, s: State, r: Request)
    requires Good(s) && Check(c, s, r).1 == CYCLE_OK
    requires var k := FindEntry(s.list, r); k < |s.list| && 0 < s.list[k].cycletime < 128
    requires r.channel.caid != 0x0100 || r.channel.provid != 0x6A
    ensures var told := Announcement(c, s, r); var k := FindEntry(s.list, r);
            && told.Some? && told.value.next in {0, 1} && told.value.cycletime.Some?
            && PushWire.ReadCycle(PushWire.CycleByte(told.value.cycletime.value, told.value.next))
               == (told.value.cycletime.value, told.value.next)
            && told.value.cycletime.value as int == s.list[k].cycletime
  {
    hide Check, RingHolds, Matches, FindEntry;
    AcceptedChangesOneHalf(c, s, r);
    ToldExactlyWhenAccepted(c, s, r);
    FoundHasChannel(s.list, r);
    var told, e := Announcement(c, s, r).value, s.list[FindEntry(s.list, r)];
    assert told == Announce(e);
    PushWire.CycleExactlyWhen(told.cycletime.value, told.next);
  }

  lemma HalvesMakeWord(a: ControlWord, b: ControlWord)
    ensures a == b <==> Half(a, 0) == Half(b, 0) && Half(a, 1) == Half(b, 1)
  {
    assert a == a[..8] + a[8..] && b == b[..8] + b[8..];
  }

  lemma UpdatedMatches(e: Entry, r: Request)
    requires e.channel == r.channel
    ensures Matches(Updated(e, r), r)
  {
  }

  // Each channel is judged against its last stored request

  /** An entry apart from its mark. */
  function Unmarked(e: Entry): Entry {
    e.(retired := false)
  }

  /** The request can neither find nor create an entry that key would find. */
  predicate Foreign(r: Request, key: Request) {
    r.channel != key.channel || (r.ecmlen != 0 && key.ecmlen != 0 && r.ecmlen != key.ecmlen)
  }

  /** What happens between two stored requests of a key: cleanings, requests of other
      keys, and requests that are not stored. */
  predicate Idle(c: Config, s: State, e: Event, key: Request)
    requires Aligned(s)
  {
    match e
    case Cleaned(_) => true
    case Checked(r) => Foreign(r, key) || |Check(c, s, r).0.list| == |s.list|
  }

  /** The key finds entry e, whatever its mark. */
  ghost predicate Finds(s: State, key: Request, e: Entry) {
    var k := FindEntry(s.list, key);
    k < |s.list| && Unmarked(s.list[k]) == Unmarked(e)
  }

  ghost predicate FindsNothing(s: State, key: Request) {
    FindEntry(s.list, key) == |s.list|
  }

  lemma {:induction false} FindIsFirst(list: seq<Entry>, r: Request, k: nat)
    requires k <= |list| && (k < |list| ==> Matches(list[k], r))
    requires forall i :: 0 <= i < k ==> !Matches(list[i], r)
    ensures FindEntry(list, r) == k
  {
    hide Matches;
    if k == 0 {
    } else {
      assert !Matches(list[0], r);
      FindIsFirst(list[1..], r, k - 1);
    }
  }

  lemma {:induction false} MarkingFindsSame(list: seq<Entry>, j: nat, key: Request)
    requires j < |list|
    ensures FindEntry(MarkOld(list, j), key) == FindEntry(list, key)
  {
    hide FindEntry;
    var k, m := FindEntry(list, key), MarkOld(list, j);
    forall i | 0 <= i < |list|
      ensures Matches(m[i], key) <==> Matches(list[i], key)
    {
    }
    FindIsFirst(m, key, k);
  }

  lemma {:induction false} PushingForeign(list: seq<Entry>, e: Entry, key: Request)
    requires !Matches(e, key)
    ensures FindEntry([e] + list, key) == 1 + FindEntry(list, key)
  {
    assert ([e] + list)[1..] == list;
  }

  lemma ForeignDoesNotMatch(c: Config, e: Entry, r: Request, key: Request)
    requires Foreign(r, key)
    ensures !Matches(NewEntry(c, r), key)
    ensures e.channel == r.channel ==> !Matches(Updated(e, r), key)
  {
  }

  lemma IdleKeepsFound(c: Config, s: State, ev: Event, key: Request, e: Entry)
    requires Good(s) && Idle(c, s, ev, key) && (Finds(s, key, e) || FindsNothing(s, key))
    ensures var t := After(c, s, ev);
            Finds(t, key, e) || FindsNothing(t, key)
  {
    hide Judge, ValidCw, FindEntry, Updated, Matches, NewEntry, Foreign, RingHolds, WellStaged, FirstStale, Current;
    var t := After(c, s, ev);
    match ev
    case Cleaned(now) =>
      CutFinds(s.list, key, FirstStale(c, s.list, now));
    case Checked(r) =>
      var k := FindEntry(s.list, r);
      if ValidCw(r) && k < |s.list| {
        MarkingFindsSame(s.list, k, key);
        var j := Judge(c, s.list[k], r);
        JudgeKeeps(c, s.list[k], r);
        assert s.list[k].channel == r.channel by { FoundHasChannel(s.list, r); }
        if j.store {
          ForeignDoesNotMatch(c, j.entry, r, key);
          PushingForeign(MarkOld(s.list, k), Updated(j.entry, r), key);
        }
      } else if ValidCw(r) && s.size <= c.maxList {
        ForeignDoesNotMatch(c, NewEntry(c, r), r, key);
        PushingForeign(s.list, NewEntry(c, r), key);
      }
  }

  lemma {:induction false} FoundHasChannel(list: seq<Entry>, r: Request)
    requires FindEntry(list, r) < |list|
    ensures list[FindEntry(list, r)].channel == r.channel
  {
  }

  lemma {:induction false} CutFinds(list: seq<Entry>, key: Request, n: nat)
    requires n <= |list|
    ensures var k := FindEntry(list, key);
            FindEntry(list[..n], key) == if k < n then k else n
  {
    hide Matches, FindEntry;
    var k := FindEntry(list, key);
    FindIsFirst(list[..n], key, if k < n then k else n);
  }

  predicate AllIdle(c: Config, s: State, events: seq<Event>, key: Request)
    requires Aligned(s)
    decreases events
  {
    events == [] || (AlignedStays(c, s, events[0]);
      Idle(c, s, events[0], key) && AllIdle(c, After(c, s, events[0]), events[1..], key))
  }

  lemma {:induction false} IdleRunKeepsFound(c: Config, s: State, events: seq<Event>, key: Request, e: Entry)
    requires Good(s) && AllIdle(c, s, events, key) && (Finds(s, key, e) || FindsNothing(s, key))
    ensures var t := Run(c, s, events);
            Good(t) && (Finds(t, key, e) || FindsNothing(t, key))
    decreases events
  {
    hide Good, Finds, FindsNothing, Idle, After;
    if events == [] {
    } else {
      GoodIsAligned(s);
      IdleKeepsFound(c, s, events[0], key, e);
      RunsStayGood(c, s, [events[0]]);
      GoodStep(c, s, events[0]);
      IdleRunKeepsFound(c, After(c, s, events[0]), events[1..], key, e);
    }
  }

  lemma GoodStep(c: Config, s: State, e: Event)
    requires Good(s)
    ensures Good(After(c, s, e))
  {
    hide Good, Check, Clean;
    GoodIsAligned(s);
    match e
    case Checked(r) => CheckKeepsGood(c, s, r);
    case Cleaned(now) => CleanKeepsGood(c, s, now);
  }

  /** Alternation over whole runs. Two accepted words of a channel, with anything in
      between that stores nothing for it, change alternating halves: the half that the
      first acceptance changed is the one the second leaves alone. */
  lemma {:induction false} AcceptedHalvesAlternate(c: Config, s: State, r1: Request, between: seq<Event>, r2: Request)
    requires Good(s) && Check(c, s, r1).1 == CYCLE_OK
    requires r2.channel == r1.channel && r2.ecmlen == r1.ecmlen
    requires var s1 := Check(c, s, r1).0;
             && Aligned(s1) && AllIdle(c, s1, between, r1)
             && Check(c, Run(c, s1, between), r2).1 == CYCLE_OK
    ensures var stays := s.list[FindEntry(s.list, r1)].next;
            && Half(r1.cw, stays) == Half(s.list[FindEntry(s.list, r1)].cw, stays)
            && Half(r2.cw, 1 - stays) == Half(r1.cw, 1 - stays)
            && Half(r2.cw, stays) != Half(r1.cw, stays)
  {
    hide Good, Check, Run, AllIdle, Matches, FindEntry;
    GoodIsAligned(s);
    AcceptedChangesOneHalf(c, s, r1);
    var s1 := Check(c, s, r1).0;
    CheckKeepsGood(c, s, r1);
    var top := s1.list[0];
    FindIsFirst(s1.list, r1, 0);
    IdleRunKeepsFound(c, s1, between, r1, top);
    var s2 := Run(c, s1, between);
    AcceptedChangesOneHalf(c, s2, r2);
    SameKeySameEntry(s2.list, r1, r2);
  }

  lemma {:induction false} SameKeySameEntry(list: seq<Entry>, r1: Request, r2: Request)
    requires r2.channel == r1.channel && r2.ecmlen == r1.ecmlen
    ensures FindEntry(list, r1) == FindEntry(list, r2)
  {
    hide FindEntry;
    var k := FindEntry(list, r1);
    forall i | 0 <= i < |list|
      ensures Matches(list[i], r1) <==> Matches(list[i], r2)
    {
    }
    FindIsFirst(list, r2, k);
  }

  // Cleaning

  function FreshOnes(c: Config, list: seq<Entry>, now: int): seq<Entry> {
    if list == [] then []
    else (if Fresh(c, list[0], now) then [list[0]] else []) + FreshOnes(c, list[1..], now)
  }

  /** No fresh entry stands behind a stale one. */
  ghost predicate FreshFirst(c: Config, list: seq<Entry>, now: int) {
    forall i, j :: 0 <= i < j < |list| && Fresh(c, list[j], now) ==> Fresh(c, list[i], now)
  }

  /** Cutting at the first stale entry keeps exactly the fresh ones if and only if none of
      them stands behind a stale one. */
  lemma {:induction false} CutIsFilterExactlyWhen(c: Config, list: seq<Entry>, now: int)
    ensures list[..FirstStale(c, list, now)] == FreshOnes(c, list, now) <==> FreshFirst(c, list, now)
  {
    hide Fresh;
    if list == [] {
    } else {
      var rest := list[1..];
      if Fresh(c, list[0], now) {
        CutIsFilterExactlyWhen(c, rest, now);
        assert list[..FirstStale(c, list, now)] == [list[0]] + rest[..FirstStale(c, rest, now)];
        FreshFirstOfTail(c, list, now);
      } else {
        NoneFresh(c, rest, now);
        if FreshOnes(c, rest, now) != [] {
          var j :| 0 <= j < |rest| && Fresh(c, rest[j], now);
          assert Fresh(c, list[j + 1], now);
        }
      }
    }
  }

  lemma FreshFirstOfTail(c: Config, list: seq<Entry>, now: int)
    requires list != [] && Fresh(c, list[0], now)
    ensures FreshFirst(c, list, now) <==> FreshFirst(c, list[1..], now)
  {
    hide Fresh;
    var rest := list[1..];
    if FreshFirst(c, list, now) {
      forall i, j | 0 <= i < j < |rest| && Fresh(c, rest[j], now)
        ensures Fresh(c, rest[i], now)
      {
        assert rest[j] == list[j + 1] && rest[i] == list[i + 1];
      }
    }
    if FreshFirst(c, rest, now) {
      forall i, j | 0 <= i < j < |list| && Fresh(c, list[j], now)
        ensures Fresh(c, list[i], now)
      {
        if i > 0 {
          assert rest[j - 1] == list[j] && rest[i - 1] == list[i];
        }
      }
    }
  }

  lemma {:induction false} NoneFresh(c: Config, list: seq<Entry>, now: int)
    ensures FreshOnes(c, list, now) == [] <==> forall j :: 0 <= j < |list| ==> !Fresh(c, list[j], now)
  {
    hide Fresh;
    if list == [] {
    } else {
      NoneFresh(c, list[1..], now);
      if forall j :: 0 <= j < |list| ==> !Fresh(c, list[j], now) {
        forall j | 0 <= j < |list[1..]|
          ensures !Fresh(c, list[1..][j], now)
        {
          assert list[1..][j] == list[j + 1];
        }
      } else if !Fresh(c, list[0], now) {
        var j :| 0 <= j < |list| && Fresh(c, list[j], now);
        assert list[1..][j - 1] == list[j];
      }
    }
  }

  /** Newest first, and nothing newer than the last request. */
  ghost predicate NewestFirst(list: seq<Entry>, last: int) {
    && (forall i, j :: 0 <= i < j < |list| ==> list[i].time >= list[j].time)
    && (forall i :: 0 <= i < |list| ==> list[i].time <= last)
  }

  /** Request times never go back. */
  ghost predicate InOrder(events: seq<Event>, last: int)
    decreases events
  {
    if events == [] then true
    else
      match events[0]
      case Checked(r) => last <= r.now && InOrder(events[1..], r.now)
      case Cleaned(_) => InOrder(events[1..], last)
  }

  lemma CheckKeepsOrder(c: Config, s: State, r: Request, last: int)
    requires Aligned(s) && NewestFirst(s.list, last) && last <= r.now
    ensures NewestFirst(Check(c, s, r).0.list, r.now)
  {
    hide Judge, ValidCw, FindEntry, Matches, Updated, NewEntry, Record;
    var k := FindEntry(s.list, r);
    if ValidCw(r) {
      TimesSet(c, if k < |s.list| then Judge(c, s.list[k], r).entry else NewEntry(c, r), r);
    }
  }

  lemma TimesSet(c: Config, e: Entry, r: Request)
    ensures NewEntry(c, r).time == r.now && Updated(e, r).time == r.now
  {
  }

  /** With request times that never go back the list stays newest first, and every
      cleaning removes exactly the entries older than the limit. */
  lemma {:induction false} CleaningIsExactOverRuns(c: Config, s: State, events: seq<Event>, last: int, now: int)
    returns (latest: int)
    requires Aligned(s) && NewestFirst(s.list, last) && InOrder(events, last)
    ensures var t := Run(c, s, events);
            && NewestFirst(t.list, latest)
            && (t.cleaned + 120 <= now ==> Clean(c, t, now).list == FreshOnes(c, t.list, now))
    decreases events
  {
    hide Check, FreshOnes, FirstStale;
    if events == [] {
      latest := last;
      CutIsFilterExactlyWhen(c, s.list, now);
    } else {
      AlignedStays(c, s, events[0]);
      var after := After(c, s, events[0]);
      match events[0] {
        case Checked(r) =>
          CheckKeepsOrder(c, s, r, last);
          latest := CleaningIsExactOverRuns(c, after, events[1..], r.now, now);
        case Cleaned(at) =>
          latest := CleaningIsExactOverRuns(c, after, events[1..], last, now);
      }
    }
  }
}
