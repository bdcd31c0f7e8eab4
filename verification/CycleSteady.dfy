/** What the cycle checker learns, and that a channel whose words alternate at a steady interval is
    accepted from then on (oscam/module-cw-cycle-check.c:266-578). */
module CycleSteady {
  import opened Bytes
  import opened CycleCheck
  import opened CycleRuns

  /** Exactly this half differs between two words. */
  predicate OnlyHalfChanged(before: ControlWord, after: ControlWord, which: int) {
    && which in {0, 1}
    && Half(after, which) != Half(before, which) && Half(after, 1 - which) == Half(before, 1 - which)
  }

  lemma NextHalfHasChanged(e: Entry, cw: ControlWord)
    requires e.next == 2
    ensures NextHalf(e, cw) < 2 ==> OnlyHalfChanged(e.cw, cw, NextHalf(e, cw))
    ensures Filled(cw) ==> forall which :: OnlyHalfChanged(e.cw, cw, which) ==> NextHalf(e, cw) == which
  {
    hide NextHalf, Filled;
    NextHalfIsKnown(e, cw);
  }

  lemma LearnNamesChangedHalf(e: Entry, r: Request, verdict: int)
    requires WellStaged(e) && e.stage != 3
    ensures var j := Learn(e, r, verdict); j.entry.stage == 3 ==> OnlyHalfChanged(e.cw, r.cw, j.entry.next)
  {
    hide NextHalf, Int16, OnlyHalfChanged, ToInt8;
    NextHalfHasChanged(e, r.cw);
  }

  /** When learning comes to its end, the half it names as the one to stay next is the half in which the
      request's word differs from the stored one, and the other half is the same. */
  lemma {:induction false} LearnedHalfHasChanged(c: Config, s: State, r: Request)
    requires Good(s) && FindEntry(s.list, r) < |s.list| && !(c.useCacheEx && HasCacheExInfo(r))
    requires s.list[FindEntry(s.list, r)].stage in {2, 4}
    ensures var e, t := s.list[FindEntry(s.list, r)], Check(c, s, r).0;
            |t.list| > |s.list| && t.list[0].stage == 3 ==> OnlyHalfChanged(e.cw, r.cw, t.list[0].next) && t.list[0].cw == r.cw
  {
    hide Learn, FindEntry, FindInRing, ValidCw, OnlyHalfChanged, RingHolds;
    LearnNamesChangedHalf(s.list[FindEntry(s.list, r)], r, LEARNING);
  }

  /** A channel that is being learned, and not locked, is learned by this request exactly if it changes one
      half of the word only and, in stage 2, comes at the interval expected. */
  lemma {:induction false} LearnedExactlyWhen(c: Config, s: State, r: Request)
    requires Good(s) && ValidCw(r) && Filled(r.cw) && FindEntry(s.list, r) < |s.list| && !(c.useCacheEx && HasCacheExInfo(r))
    requires s.list[FindEntry(s.list, r)].stage in {2, 4} && r.now > s.list[FindEntry(s.list, r)].locktime
    ensures var e, t := s.list[FindEntry(s.list, r)], Check(c, s, r).0;
            && |t.list| == |s.list| + 1
            && (t.list[0].stage == 3 <==>
                  && (exists which :: OnlyHalfChanged(e.cw, r.cw, which))
                  && (e.stage == 2 ==> e.cycletime > 0 && -2 < Int16(r.now - e.time - e.cycletime) < 2))
            && (e.stage == 4 && t.list[0].stage != 3 ==> t.list[0].stage == if e.repeat > 12 then 1 else 4)
  {
    hide FindEntry, FindInRing, ValidCw, Filled, OnlyHalfChanged, RingHolds, NextHalf, Int16, ToInt8;
    var e := s.list[FindEntry(s.list, r)];
    NextHalfHasChanged(e, r.cw);
    KnownExactlyWhen(e, r.cw);
  }

  lemma KnownExactlyWhen(e: Entry, cw: ControlWord)
    requires e.next == 2 && Filled(cw)
    ensures NextHalf(e, cw) < 2 <==> exists which :: OnlyHalfChanged(e.cw, cw, which)
    ensures NextHalf(e, cw) in {0, 1, 2}
  {
    hide NextHalf, Filled, Half;
    NextHalfIsKnown(e, cw);
    NextHalfHasChanged(e, cw);
    if which :| OnlyHalfChanged(e.cw, cw, which) {
      assert NextHalf(e, cw) == which;
    }
  }

  // Verdicts on a learned channel

  /** How many bytes are the same. */
  lemma {:induction false} SameBytesCounts(a: bytes, b: bytes)
    requires |a| == |b|
    ensures SameBytes(a, b) == |set i | 0 <= i < |a| && a[i] == b[i]|
  {
    var same := set i | 0 <= i < |a| && a[i] == b[i];
    if a == [] {
      assert same == {};
    } else {
      var n := |a| - 1;
      SameBytesCounts(a[..n], b[..n]);
      var front := set i | 0 <= i < n && a[..n][i] == b[..n][i];
      assert same == if a[n] == b[n] then front + {n} else front;
    }
  }

  /** The request is for a learned channel, and says nothing of the cycle itself. */
  ghost predicate ForLearned(c: Config, s: State, r: Request) {
    && Good(s) && ValidCw(r) && FindEntry(s.list, r) < |s.list| && !(c.useCacheEx && HasCacheExInfo(r))
    && s.list[FindEntry(s.list, r)].stage == 3
  }

  predicate InTime(e: Entry, r: Request) {
    r.now - e.time < 2 * e.cycletime - e.dyncycletime - 1
  }

  /** It is ignored, and the channel learned again, exactly if the last answer is twice the interval old,
      less the lateness learned and one second. */
  lemma {:induction false} IgnoredExactlyWhenLate(c: Config, s: State, r: Request)
    requires ForLearned(c, s, r)
    ensures Check(c, s, r).1 == IGNORED <==> !InTime(s.list[FindEntry(s.list, r)], r)
  {
    hide ValidCw, FindEntry, FindInRing, RingHolds, SameRequest, SameBytes, Learn, Half;
    var e := s.list[FindEntry(s.list, r)];
    assert WellStaged(e);
    LearnKeeps(e.(next := 1 - e.next), r, CYCLE_OK);
    FallenIsIgnored(c, e, r);
  }

  lemma FallenIsIgnored(c: Config, e: Entry, r: Request)
    requires WellStaged(e)
    ensures Learn(Fallen(c, e, r), r, IGNORED).verdict == IGNORED
  {
    hide NextHalf, Int16, ToInt8;
  }

  /** It is accepted exactly if it is in time, leaves alone the half that was named to stay, and changes the
      other one in enough of its bytes; then the interval stays and the lateness is measured anew. */
  lemma {:induction false} AcceptedExactlyWhen(c: Config, s: State, r: Request)
    requires ForLearned(c, s, r)
    ensures var e, (t, v) := s.list[FindEntry(s.list, r)], Check(c, s, r);
            && (v == CYCLE_OK <==>
                  && InTime(e, r) && OnlyHalfChanged(e.cw, r.cw, 1 - e.next)
                  && (c.sensitive == 0 || SameBytes(Half(e.cw, 1 - e.next), Half(r.cw, 1 - e.next)) < c.sensitive))
            && (v == CYCLE_OK ==>
                  && |t.list| == |s.list| + 1 && t.list[0].cycletime == e.cycletime && t.list[0].time == r.now
                  && t.list[0].dyncycletime == if r.now - e.time > e.cycletime then r.now - e.time - e.cycletime else 0)
  {
    hide ValidCw, FindEntry, FindInRing, RingHolds, SameRequest, SameBytes, Int16, Half;
    var e := s.list[FindEntry(s.list, r)];
    assert WellStaged(e);
    HalvesMakeWord(e.cw, r.cw);
    FallenIsIgnored(c, e, r);
  }

  /** The word of the last answer, in time, is too old only if such words are to be dropped and the interval,
      less the lateness learned, is over. */
  lemma {:induction false} SameWordVerdict(c: Config, s: State, r: Request)
    requires ForLearned(c, s, r)
    requires var e := s.list[FindEntry(s.list, r)]; InTime(e, r) && e.cw == r.cw
    ensures var e, (t, v) := s.list[FindEntry(s.list, r)], Check(c, s, r);
            && v == (if c.dropOld && r.now - e.time >= e.cycletime - e.dyncycletime then TOO_OLD else SAME_CW)
            && |t.list| == |s.list|
  {
    hide ValidCw, FindEntry, FindInRing, RingHolds, SameRequest, SameBytes, Learn, Half;
    assert WellStaged(s.list[FindEntry(s.list, r)]);
  }

  /** A channel that is learned again forgets its word: it is learned at once only from a word of which one
      half is null, and goes back to stage 4 if its last answer is not older than the time entries are
      kept, otherwise it begins at the interval. */
  lemma {:induction false} LearnedAgain(c: Config, s: State, r: Request)
    requires ForLearned(c, s, r) && Filled(r.cw) && r.now > s.list[FindEntry(s.list, r)].locktime
    requires !InTime(s.list[FindEntry(s.list, r)], r)
    ensures var e, t := s.list[FindEntry(s.list, r)], Check(c, s, r).0;
            && |t.list| == |s.list| + 1
            && (t.list[0].stage == 3 ==> OnlyHalfChanged(Zeros(16), r.cw, t.list[0].next))
            && (t.list[0].stage != 3 ==>
                  t.list[0].stage == if 0 < c.keepMinutes && r.now - e.time < c.keepMinutes * 60 && e.repeat <= 12 then 4 else 1)
  {
    hide ValidCw, FindEntry, FindInRing, RingHolds, SameRequest, SameBytes, Int16, NextHalf, Half, ToInt8, Filled;
    var e := s.list[FindEntry(s.list, r)];
    assert WellStaged(e);
    var f := Fallen(c, e, r);
    NextHalfHasChanged(f, r.cw);
    KnownExactlyWhen(f, r.cw);
  }

  /** A word that breaks the cycle is not called bad if the request is in the ring: it is too old, or the same
      word again if such words are not dropped and it is the one stored with it. */
  lemma {:induction false} RepeatedVerdict(c: Config, s: State, r: Request)
    requires ForLearned(c, s, r)
    requires var e := s.list[FindEntry(s.list, r)];
             InTime(e, r) && e.cw != r.cw && !CycleGood(c, e, r) && FindInRing(r, e.ring, 0) < RING
    ensures var e, (t, v) := s.list[FindEntry(s.list, r)], Check(c, s, r);
            && v == (if !c.dropOld && e.ring[FindInRing(r, e.ring, 0)].cw == r.cw then SAME_CW else TOO_OLD)
            && |t.list| == |s.list|
  {
    hide ValidCw, FindEntry, FindInRing, RingHolds, SameRequest, CycleGood, Learn, Half;
    assert WellStaged(s.list[FindEntry(s.list, r)]);
  }

  // Other requests

  /** Null words, unless it is BISS, words with a null half of Videoguard, and answers that were not found are
      ignored and leave everything as it is. */
  lemma NullWordsAreIgnored(c: Config, s: State, r: Request)
    requires Aligned(s)
    requires || (r.cw == Zeros(16) && !r.biss) || r.notFound
             || (r.videoguard && (Half(r.cw, 0) == Zeros(8) || Half(r.cw, 1) == Zeros(8)))
    ensures Check(c, s, r) == (s, IGNORED)
  {
  }

  /** What came over cache exchange is believed, if it is used: a new word makes the channel learned with this
      interval and this half. */
  lemma {:induction false} CacheExIsBelieved(c: Config, s: State, r: Request)
    requires Good(s) && ValidCw(r) && FindEntry(s.list, r) < |s.list| && c.useCacheEx && HasCacheExInfo(r)
    ensures var e, (t, v) := s.list[FindEntry(s.list, r)], Check(c, s, r);
            && (v == FROM_CACHEEX <==> e.cw != r.cw)
            && (v == FROM_CACHEEX ==>
                  |t.list| == |s.list| + 1 && t.list[0].stage == 3 && t.list[0].cycletime == r.ceTime as int
                  && t.list[0].next == r.ceNext as int && t.list[0].cw == r.cw)
  {
    hide ValidCw, FindEntry, FindInRing, RingHolds, SameRequest, SameBytes, Learn, Half;
  }

  /** Cleanings are two minutes apart at least. */
  lemma CleaningsApart(c: Config, s: State, now: int)
    requires Aligned(s)
    ensures Clean(c, s, now) == s || (now - s.cleaned >= 120 && Clean(c, s, now).cleaned == now)
    ensures now - s.cleaned >= 120 ==> Clean(c, s, now).cleaned == now
  {
    hide FirstStale, Current;
  }

  /** While the list is newest first, a cleaning keeps exactly the entries renewed within the time to keep them
      and half a minute. */
  lemma CleaningKeeps(c: Config, s: State, last: int, now: int, e: Entry)
    requires Aligned(s) && NewestFirst(s.list, last) && s.cleaned + 120 <= now
    ensures e in Clean(c, s, now).list <==> e in s.list && now - e.time <= c.keepMinutes * 60 + 30
  {
    var k := FirstStale(c, s.list, now);
    if e in s.list && now - e.time <= c.keepMinutes * 60 + 30 {
      var i :| 0 <= i < |s.list| && s.list[i] == e;
      assert i < k;
    }
  }

  // A steady channel

  /** Requests of one channel, interval seconds apart, without information from cache exchange, and
      answered before the next one. */
  ghost predicate Steadily(c: Config, rs: seq<Request>, interval: int) {
    && 1 < interval
    && (forall i :: 0 <= i < |rs| ==>
          && ValidCw(rs[i]) && Filled(rs[i].cw) && !(c.useCacheEx && HasCacheExInfo(rs[i]))
          && 0 <= rs[i].fallbackSeconds < interval)
    && (forall i :: 0 < i < |rs| ==>
          && rs[i].channel == rs[i - 1].channel && rs[i].ecmlen == rs[i - 1].ecmlen
          && rs[i].now == rs[i - 1].now + interval)
  }

  /** The words change their halves in turn, beginning with this one, and enough of it. */
  ghost predicate Alternate(c: Config, rs: seq<Request>, which: int)
    decreases |rs|
  {
    |rs| < 2
    || (&& OnlyHalfChanged(rs[0].cw, rs[1].cw, which)
        && (c.sensitive == 0 || SameBytes(Half(rs[0].cw, which), Half(rs[1].cw, which)) < c.sensitive)
        && Alternate(c, rs[1..], 1 - which))
  }

  /** How far a channel has been learned: the stage, with the interval known or not. */
  datatype Phase = First | Timed | Once | Twice | Learned(changed: int)

  /** The entry the last request has left. */
  predicate InPhase(e: Entry, last: Request, interval: int, p: Phase) {
    && e.cw == last.cw && e.time == last.now && WellStaged(e) && e.channel == last.channel
    && (e.stage != 3 ==> e.locktime == last.now + last.fallbackSeconds)
    && match p
       case First => e.stage == 0 && e.cycletime == 99
       case Timed => e.stage == 0 && e.cycletime == interval
       case Once => e.stage == 1 && e.cycletime == interval
       case Twice => e.stage == 2 && e.cycletime == interval
       case Learned(changed) => e.stage == 3 && e.cycletime == interval && e.dyncycletime == 0 && e.next == changed
  }

  /** New entries take 99 seconds for the interval. */
  predicate LikeNew(interval: int) {
    -2 < Int16(interval - 99) < 2
  }

  function NextPhase(p: Phase, interval: int, which: int): Phase {
    match p
    case First => if LikeNew(interval) then Once else Timed
    case Timed => Once
    case Once => Twice
    case Twice => Learned(which)
    case Learned(_) => Learned(which)
  }

  lemma LearningStep(e: Entry, last: Request, r: Request, interval: int, p: Phase, which: int)
    requires InPhase(e, last, interval, p) && !p.Learned?
    requires 1 < interval && r.now == last.now + interval && 0 <= last.fallbackSeconds < interval
    requires r.channel == last.channel && Filled(r.cw) && OnlyHalfChanged(last.cw, r.cw, which)
    ensures var j := Learn(e, r, LEARNING);
            && j.store && j.verdict == LEARNING
            && InPhase(Updated(j.entry, r), r, interval, NextPhase(p, interval, which))
  {
    hide NextHalf, Half, Filled, ToInt8;
    NextHalfHasChanged(e, r.cw);
  }

  lemma AcceptedStep(c: Config, e: Entry, last: Request, r: Request, interval: int, which: int)
    requires InPhase(e, last, interval, Learned(1 - which))
    requires 1 < interval && r.now == last.now + interval && !(c.useCacheEx && HasCacheExInfo(r))
    requires r.channel == last.channel && OnlyHalfChanged(last.cw, r.cw, which)
    requires c.sensitive == 0 || SameBytes(Half(last.cw, which), Half(r.cw, which)) < c.sensitive
    ensures var j := Judge(c, e, r);
            j.store && j.verdict == CYCLE_OK && InPhase(Updated(j.entry, r), r, interval, Learned(which))
  {
    hide FindInRing, SameBytes, Int16;
    assert InWindow(e, r) && e.cw != r.cw && CycleGood(c, e, r);
  }

  /** One request of a steady channel whose entry is found. */
  lemma SteadyStep(c: Config, s: State, e: Entry, last: Request, r: Request, interval: int, p: Phase, which: int)
    requires Good(s) && Finds(s, r, e) && InPhase(e, last, interval, p) && (p.Learned? ==> p.changed == 1 - which)
    requires 1 < interval && r.now == last.now + interval && 0 <= last.fallbackSeconds < interval
    requires ValidCw(r) && Filled(r.cw) && !(c.useCacheEx && HasCacheExInfo(r))
    requires r.channel == last.channel && OnlyHalfChanged(last.cw, r.cw, which)
    requires c.sensitive == 0 || SameBytes(Half(last.cw, which), Half(r.cw, which)) < c.sensitive
    ensures var (t, v) := Check(c, s, r);
            && v == (if p.Learned? then CYCLE_OK else LEARNING)
            && |t.list| > 0 && InPhase(t.list[0], r, interval, NextPhase(p, interval, which)) && Matches(t.list[0], r)
  {
    hide ValidCw, Filled, Learn, FindEntry, OnlyHalfChanged, RingHolds, SameBytes, FindInRing;
    var f := s.list[FindEntry(s.list, r)];
    assert InPhase(f, last, interval, p);
    if p.Learned? {
      AcceptedStep(c, f, last, r, interval, which);
    } else {
      LearningStep(f, last, r, interval, p, which);
    }
    UpdatedMatches(Judge(c, f, r).entry, r);
  }

  // Over runs

  /** The verdicts on these requests, each after the events in between. */
  function Verdicts(c: Config, s: State, gaps: seq<seq<Event>>, rs: seq<Request>): seq<int>
    requires |gaps| == |rs| && Aligned(s)
    decreases |rs|
  {
    if rs == [] then []
    else
      var before := Run(c, s, gaps[0]);
      AlignedStays(c, before, Checked(rs[0]));
      [Check(c, before, rs[0]).1] + Verdicts(c, Check(c, before, rs[0]).0, gaps[1..], rs[1..])
  }

  /** In between there are only cleanings and requests of other channels, and the cleanings leave the
      channel's entry alone. */
  ghost predicate Undisturbed(c: Config, s: State, gaps: seq<seq<Event>>, rs: seq<Request>)
    requires |gaps| == |rs| && Aligned(s)
    decreases |rs|
  {
    rs == []
    || (var before := Run(c, s, gaps[0]);
        AlignedStays(c, before, Checked(rs[0]));
        && AllIdle(c, s, gaps[0], rs[0]) && FindEntry(before.list, rs[0]) < |before.list|
        && Undisturbed(c, Check(c, before, rs[0]).0, gaps[1..], rs[1..]))
  }

  /** The verdicts still to come in a phase: first the words that are learned from, then accepted ones. */
  function ToCome(p: Phase, interval: int, n: nat): seq<int> {
    seq(n, i requires 0 <= i < n => if i < StillToLearn(p, interval) then LEARNING else CYCLE_OK)
  }

  function StillToLearn(p: Phase, interval: int): nat {
    match p
    case First => if LikeNew(interval) then 3 else 4
    case Timed => 3
    case Once => 2
    case Twice => 1
    case Learned(_) => 0
  }

  lemma OneLess(p: Phase, interval: int, which: int, n: nat)
    requires n > 0
    ensures ToCome(p, interval, n)
            == [if p.Learned? then CYCLE_OK else LEARNING] + ToCome(NextPhase(p, interval, which), interval, n - 1)
  {
    hide LikeNew;
    var all, rest := ToCome(p, interval, n), ToCome(NextPhase(p, interval, which), interval, n - 1);
    forall i | 0 < i < n
      ensures all[i] == rest[i - 1]
    {
      assert i < StillToLearn(p, interval) <==> i - 1 < StillToLearn(NextPhase(p, interval, which), interval);
    }
    assert StillToLearn(p, interval) == 0 <==> p.Learned?;
    assert all[0] == if 0 < StillToLearn(p, interval) then LEARNING else CYCLE_OK;
    assert all == [all[0]] + rest;
  }

  lemma NoneToCome(p: Phase, interval: int)
    ensures ToCome(p, interval, 0) == []
  {
    hide LikeNew;
  }

  /** One more request, after the events before it. */
  lemma {:induction false} NextIsSteady(c: Config, s: State, e: Entry, last: Request, gap: seq<Event>, r: Request,
                                        interval: int, p: Phase, which: int)
    requires Good(s) && Aligned(s) && Finds(s, last, e)
    requires InPhase(e, last, interval, p) && (p.Learned? ==> p.changed == 1 - which)
    requires AllIdle(c, s, gap, r) && FindEntry(Run(c, s, gap).list, r) < |Run(c, s, gap).list|
    requires 1 < interval && r.now == last.now + interval && 0 <= last.fallbackSeconds < interval
    requires ValidCw(r) && Filled(r.cw) && !(c.useCacheEx && HasCacheExInfo(r))
    requires r.channel == last.channel && r.ecmlen == last.ecmlen && OnlyHalfChanged(last.cw, r.cw, which)
    requires c.sensitive == 0 || SameBytes(Half(last.cw, which), Half(r.cw, which)) < c.sensitive
    ensures var (t, v) := Check(c, Run(c, s, gap), r);
            && v == (if p.Learned? then CYCLE_OK else LEARNING)
            && Good(t) && |t.list| > 0 && Finds(t, r, t.list[0])
            && InPhase(t.list[0], r, interval, NextPhase(p, interval, which))
  {
    hide Good, Check, Run, AllIdle, InPhase, OnlyHalfChanged, ValidCw, Filled, NextPhase, Finds, FindEntry, SameBytes, Matches,
         HasCacheExInfo, Half;
    var before := Run(c, s, gap);
    StaysFound(c, s, gap, last, r, e);
    SteadyStep(c, before, e, last, r, interval, p, which);
    CheckKeepsGood(c, before, r);
    TopIsFound(Check(c, before, r).0, r);
  }

  lemma RestIsSteady(c: Config, last: Request, rs: seq<Request>, interval: int)
    requires rs != [] && Steadily(c, [last] + rs, interval)
    ensures 1 < interval && Steadily(c, [rs[0]] + rs[1..], interval)
    ensures rs[0].now == last.now + interval && rs[0].channel == last.channel && rs[0].ecmlen == last.ecmlen
    ensures 0 <= last.fallbackSeconds < interval
    ensures ValidCw(rs[0]) && Filled(rs[0].cw) && !(c.useCacheEx && HasCacheExInfo(rs[0]))
  {
    hide ValidCw, Filled, HasCacheExInfo;
    var all := [last] + rs;
    assert [rs[0]] + rs[1..] == rs && all[0] == last && all[1] == rs[0];
    assert forall i :: 0 <= i < |rs| ==> rs[i] == all[i + 1];
  }

  lemma {:induction false} RestAlternates(c: Config, last: Request, rs: seq<Request>, which: int)
    requires rs != [] && Alternate(c, [last] + rs, which)
    ensures OnlyHalfChanged(last.cw, rs[0].cw, which) && Alternate(c, [rs[0]] + rs[1..], 1 - which)
    ensures c.sensitive == 0 || SameBytes(Half(last.cw, which), Half(rs[0].cw, which)) < c.sensitive
  {
    hide OnlyHalfChanged, SameBytes;
    var all := [last] + rs;
    assert [rs[0]] + rs[1..] == rs == all[1..] && all[0] == last && all[1] == rs[0];
  }

  lemma {:induction false} SteadyFrom(c: Config, s: State, e: Entry, last: Request, gaps: seq<seq<Event>>, rs: seq<Request>,
                                      interval: int, p: Phase, which: int)
    requires Good(s) && Aligned(s) && Finds(s, last, e)
    requires InPhase(e, last, interval, p) && (p.Learned? ==> p.changed == 1 - which)
    requires |gaps| == |rs| && Steadily(c, [last] + rs, interval) && Alternate(c, [last] + rs, which)
    requires Undisturbed(c, s, gaps, rs)
    ensures Verdicts(c, s, gaps, rs) == ToCome(p, interval, |rs|)
    decreases |rs|
  {
    hide Good, Check, Run, AllIdle, InPhase, OnlyHalfChanged, ValidCw, Filled, NextPhase, Finds, FindEntry, SameBytes, ToCome,
         Steadily, Alternate, HasCacheExInfo, Half;
    if rs == [] {
      NoneToCome(p, interval);
    } else {
      var r, before := rs[0], Run(c, s, gaps[0]);
      RestIsSteady(c, last, rs, interval);
      RestAlternates(c, last, rs, which);
      NextIsSteady(c, s, e, last, gaps[0], r, interval, p, which);
      var t := Check(c, before, r).0;
      GoodIsAligned(t);
      LearnedWhich(p, interval, which);
      SteadyFrom(c, t, t.list[0], r, gaps[1..], rs[1..], interval, NextPhase(p, interval, which), 1 - which);
      OneLess(p, interval, which, |rs|);
    }
  }

  lemma LearnedWhich(p: Phase, interval: int, which: int)
    ensures NextPhase(p, interval, which).Learned? ==> NextPhase(p, interval, which).changed == which
  {
  }

  lemma {:induction false} StaysFound(c: Config, s: State, gap: seq<Event>, last: Request, r: Request, e: Entry)
    requires Good(s) && Finds(s, last, e) && r.channel == last.channel && r.ecmlen == last.ecmlen
    requires AllIdle(c, s, gap, r)
    requires FindEntry(Run(c, s, gap).list, r) < |Run(c, s, gap).list|
    ensures Good(Run(c, s, gap)) && Finds(Run(c, s, gap), r, e)
  {
    hide Good, Run, AllIdle, FindEntry;
    SameKeySameEntry(s.list, last, r);
    IdleRunKeepsFound(c, s, gap, r, e);
  }

  lemma {:induction false} TopIsFound(t: State, r: Request)
    requires |t.list| > 0 && Matches(t.list[0], r)
    ensures Finds(t, r, t.list[0])
  {
    hide Matches;
    FindIsFirst(t.list, r, 0);
  }

  /** A channel that is not known yet, whose words change their halves in turn at a steady interval: the
      first five requests at most are learned from (four, if the interval is about the 99 seconds a new
      entry starts with), and every word after them is accepted, whatever other channels do. */
  lemma {:induction false} SteadyChannelIsAccepted(c: Config, s: State, gaps: seq<seq<Event>>, rs: seq<Request>, interval: int,
                                                   which: int)
    requires Good(s) && rs != [] && Steadily(c, rs, interval) && Alternate(c, rs, which)
    requires FindEntry(s.list, rs[0]) == |s.list| && s.size <= c.maxList
    requires |gaps| + 1 == |rs| && Aligned(Check(c, s, rs[0]).0)
    requires Undisturbed(c, Check(c, s, rs[0]).0, gaps, rs[1..])
    ensures Check(c, s, rs[0]).1 == if HasCacheExInfo(rs[0]) then FROM_CACHEEX else LEARNING
    ensures var verdicts := Verdicts(c, Check(c, s, rs[0]).0, gaps, rs[1..]);
            && |verdicts| == |gaps|
            && forall i :: 0 <= i < |gaps| ==>
                 verdicts[i] == if i < (if LikeNew(interval) then 3 else 4) then LEARNING else CYCLE_OK
  {
    hide Good, OnlyHalfChanged, ValidCw, Filled, FindEntry, SameBytes, Undisturbed, Verdicts, LikeNew, RingHolds;
    var r, t := rs[0], Check(c, s, rs[0]).0;
    assert t.list == [NewEntry(c, r)] + s.list;
    CheckKeepsGood(c, s, r);
    NewIsStaged(c, r);
    assert InPhase(t.list[0], r, interval, First);
    TopIsFound(t, r);
    assert rs == [r] + rs[1..];
    GoodIsAligned(t);
    SteadyFrom(c, t, t.list[0], r, gaps, rs[1..], interval, First, which);
    var still := StillToLearn(First, interval);
    assert forall i :: 0 <= i < |gaps| ==>
        ToCome(First, interval, |gaps|)[i] == if i < still then LEARNING else CYCLE_OK;
  }
}
