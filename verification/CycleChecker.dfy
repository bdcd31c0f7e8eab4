/** The cycle checker as an object: the static list of module-cw-cycle-check.c with its
    counter, searched and changed in place (lines 84-113, 146-187, 189-683). */
module CycleChecker {
  import opened Bytes
  import opened CycleCheck

  class Checker {
    const config: Config
    var list: seq<Entry>
    var size: int
    var cleaned: int
    ghost var history: seq<seq<Stored>>

    ghost function View(): State
      reads this
    {
      State(list, size, cleaned, history)
    }

    constructor (config: Config)
      ensures this.config == config && View() == State([], 0, 0, [])
    {
      this.config := config;
      list, size, cleaned, history := [], 0, 0, [];
    }

    /** The lookup loop of checkcwcycle_int */
    method Lookup(r: Request) returns (k: nat)
      ensures k == FindEntry(list, r)
    {
      hide Matches;
      k := 0;
      while k < |list| && !Matches(list[k], r)
        invariant k <= |list| && FindEntry(list, r) == k + FindEntry(list[k..], r)
      {
        assert list[k..][1..] == list[k + 1..];
        k := k + 1;
      }
    }

    /** The loop over the ring of old ECMs */
    static method SearchRing(r: Request, ring: Ring) returns (j: nat)
      ensures j == FindInRing(r, ring, 0)
    {
      hide SameRequest;
      j := 0;
      while j < RING && !SameRequest(r, ring[j])
        invariant j <= RING && FindInRing(r, ring, 0) == FindInRing(r, ring, j)
      {
        j := j + 1;
      }
    }

    /** countCWpart */
    static method CountSame(a: bytes, b: bytes) returns (n: nat)
      requires |a| == |b|
      ensures n == SameBytes(a, b)
    {
      n := 0;
      for i := 0 to |a|
        invariant n == SameBytes(a[..i], b[..i])
      {
        assert a[..i + 1][..i] == a[..i] && b[..i + 1][..i] == b[..i];
        if a[i] == b[i] {
          n := n + 1;
        }
      }
      assert a[..|a|] == a && b[..|b|] == b;
    }

    /** The learning part of checkcwcycle_int, on the copy cwc */
    method LearnCopy(e: Entry, r: Request, soFar: int) returns (j: Judged)
      ensures j == Learn(e, r, soFar)
    {
      hide NextHalf, Steady, ToInt8;
      var cwc, ret, store := e, soFar, true;
      var gap := r.now - e.time;
      if r.now > cwc.locktime {
        if cwc.stage <= 0 {
          if Steady(cwc, r) {
            cwc := cwc.(cycletime := gap, stage := cwc.stage + 1);
          }
        } else if cwc.stage == 1 {
          if Steady(cwc, r) {
            cwc := cwc.(cycletime := gap, stage := 2);
          } else {
            cwc := cwc.(stage := 0);
          }
        } else if cwc.stage == 2 {
          if Steady(cwc, r) && cwc.cycletime > 0 {
            var next := NextHalf(cwc, r.cw);
            cwc := cwc.(cycletime := gap, next := next);
            cwc := cwc.(stage := if next < 2 then 3 else 1);
          } else {
            cwc := cwc.(stage := 1);
          }
        } else if cwc.stage == 4 {
          cwc := cwc.(next := NextHalf(cwc, r.cw));
          if cwc.next < 2 {
            cwc := cwc.(stage := 3);
          } else if cwc.repeat > 12 {
            cwc := cwc.(stage := 1);
          }
          cwc := cwc.(repeat := ToInt8(cwc.repeat + 1));
          ret := if ret == IGNORED then IGNORED else LEARNING_HALF;
        }
        if cwc.stage == 3 {
          cwc := cwc.(locktime := 0, repeat := 0);
        } else {
          if cwc.stage < 3 {
            cwc := cwc.(cycletime := gap);
          }
          cwc := cwc.(locktime := r.now + r.fallbackSeconds);
        }
      } else if cwc.stage != 3 {
        store := false;
      }
      if cwc.stage == 3 {
        if gap > cwc.cycletime {
          cwc := cwc.(dyncycletime := gap - cwc.cycletime);
        } else {
          cwc := cwc.(dyncycletime := 0);
        }
      }
      j := Judged(cwc, store, ret);
    }

    /** What checkcwcycle_int does with its copy of the entry */
    method JudgeCopy(e: Entry, r: Request) returns (j: Judged, told: Option<Announced>)
      ensures j == Judge(config, e, r) && told == Told(config, e, r)
    {
      hide Learn, SameRequest, FindInRing, SameBytes;
      var cwc := e;
      told := None;
      if config.useCacheEx && r.ceTime > 0 && r.ceNext < 2 {
        cwc := cwc.(stage := 3, cycletime := r.ceTime, next := r.ceNext);
        if cwc.cw == r.cw {
          return Judged(cwc, false, VerdictOfSame(config, cwc, r)), None;
        }
        return Judged(cwc, true, FROM_CACHEEX), None;
      }
      if cwc.stage == 3 && cwc.next < 2 && r.now - cwc.time < cwc.cycletime * 2 - cwc.dyncycletime - 1 {
        if cwc.cw == r.cw {
          return Judged(cwc, false, VerdictOfSame(config, cwc, r)), None;
        }
        var ok := Half(cwc.cw, cwc.next) == Half(r.cw, cwc.next);
        if ok && config.sensitive != 0 {
          var same := CountSame(Half(cwc.cw, 1 - cwc.next), Half(r.cw, 1 - cwc.next));
          ok := same < config.sensitive;
        }
        if ok {
          cwc := cwc.(next := 1 - cwc.next);
          var time: Option<byte> := None;
          if cwc.cycletime < 128 && !(cwc.channel.caid == 0x0100 && cwc.channel.provid == 0x6A) {
            time := Some(cwc.cycletime % 256);
          }
          told := Some(Announced(cwc.next, time));
          j := LearnCopy(cwc, r, CYCLE_OK);
          return;
        }
        var k := SearchRing(r, cwc.ring);
        if k < RING {
          return Judged(cwc, false, if !config.dropOld && cwc.ring[k].cw == r.cw then SAME_CW else TOO_OLD), None;
        }
        if config.allowBadFromFallback && r.fixedFallback {
          return Judged(cwc.(stage := 4, next := 2), true, BAD_BUT_FALLBACK), None;
        }
        return Judged(cwc, false, BAD_CYCLE), None;
      }
      var ret := LEARNING;
      if cwc.stage == 3 {
        if config.keepMinutes > 0 && r.now - cwc.time < config.keepMinutes * 60 {
          cwc := cwc.(stage := 4);
        } else {
          cwc := cwc.(stage := 2);
        }
        cwc := cwc.(cw := Zeros(16), next := 2);
        ret := IGNORED;
      }
      j := LearnCopy(cwc, r, ret);
    }

    /** checkcwcycle_int */
    method CheckCycle(r: Request) returns (verdict: int, told: Option<Announced>)
      requires Aligned(View())
      modifies this
      ensures (View(), verdict) == Check(config, old(View()), r)
      ensures told == Announcement(config, old(View()), r)
    {
      hide ValidCw, Judge, Told, FindEntry, Updated, NewEntry;
      if !ValidCw(r) {
        return IGNORED, None;
      }
      var k := Lookup(r);
      if k == |list| {
        if size <= config.maxList {
          list := [NewEntry(config, r)] + list;
          size := size + 1;
          history := [[Record(r)]] + history;
          return if HasCacheExInfo(r) then FROM_CACHEEX else LEARNING, None;
        }
        return LEARNING, None;
      }
      var cwc := list[k];
      if !cwc.retired {
        size := size - 1;
      }
      list := list[k := list[k].(retired := true)];
      var j;
      j, told := JudgeCopy(cwc, r);
      if j.store {
        list := [Updated(j.entry, r)] + list;
        size := size + 1;
        history := [history[k] + [Record(r)]] + history;
      }
      verdict := j.verdict;
    }

    /** cleanupcwcycle: find the first stale entry, cut there, and count down for every
        entry behind the cut that was still current */
    method CleanUp(now: int)
      requires Aligned(View())
      modifies this
      ensures View() == Clean(config, old(View()), now)
    {
      hide FirstStale, Current;
      if cleaned + 120 > now {
        return;
      }
      cleaned := now;
      var k := FindStale(now);
      var removed := CountCurrent(list[k..]);
      list, history, size := list[..k], history[..k], size - removed;
    }

    static method CountCurrent(entries: seq<Entry>) returns (n: nat)
      ensures n == Current(entries)
    {
      hide Current;
      n := 0;
      CurrentOfNone();
      for i := 0 to |entries|
        invariant n == Current(entries[..i])
      {
        CurrentSnoc(entries, i);
        if !entries[i].retired {
          n := n + 1;
        }
      }
      assert entries[..|entries|] == entries;
    }

    method FindStale(now: int) returns (k: nat)
      ensures k == FirstStale(config, list, now)
    {
      hide Fresh;
      k := 0;
      while k < |list| && Fresh(config, list[k], now)
        invariant k <= |list| && FirstStale(config, list, now) == k + FirstStale(config, list[k..], now)
      {
        assert list[k..][1..] == list[k + 1..];
        k := k + 1;
      }
    }
  }

  lemma CurrentOfNone()
    ensures Current([]) == 0
  {
  }

  lemma CurrentSnoc(list: seq<Entry>, i: nat)
    requires i < |list|
    ensures Current(list[..i + 1]) == Current(list[..i]) + (if list[i].retired then 0 else 1)
  {
    assert list[..i + 1][..i] == list[..i];
  }
}
