/** The hit cache: which services were lately answered by cache exchange, and for which groups
    of clients (oscam/module-cacheex.c:90-171, 200-251). Times are in milliseconds. */
module HitCache {
  import opened Bytes

  datatype Key = Key(caid: Short, prid: Word, srvid: Short)

  /** A CACHE_HIT: its last hit, when its groups were last rotated, the groups that hit it
      since the rotation before, and those since the last one. */
  datatype Hit = Hit(time: int, rotated: int, grp: set<nat>, recent: set<nat>)

  type Table = map<Key, Hit>

  /** cacheex_check_hitcache; an empty set stands for no group, as well as for no client */
  predicate Check(table: Table, maxTime: nat, key: Key, grp: set<nat>, now: int) {
    && key in table
    && now - table[key].time <= maxTime * 1000
    && (grp == {} || table[key].grp == {} || grp * table[key].grp != {})
  }

  function HitBy(h: Hit, grp: set<nat>, now: int): Hit {
    Hit(now, h.rotated, h.grp + grp, h.recent + grp)
  }

  /** cacheex_add_hitcache; waits says whether there is a wait time for the request */
  function Added(table: Table, maxTime: nat, key: Key, grp: set<nat>, waits: bool, now: int): Table {
    if maxTime == 0 || !waits then table
    else table[key := HitBy(if key in table then table[key] else Hit(0, now, {}, {}), grp, now)]
  }

  predicate Expired(h: Hit, maxTime: nat, now: int) {
    now - h.time > (maxTime + maxTime / 2) * 1000
  }

  function Rotated(h: Hit, maxTime: nat, now: int): Hit {
    if now - h.rotated >= maxTime * 1000 then Hit(h.time, now, h.recent, {}) else h
  }

  /** cacheex_cleanup_hitcache */
  function Cleaned(table: Table, maxTime: nat, now: int, force: bool): Table {
    map key | key in table && !force && !Expired(table[key], maxTime, now) :: Rotated(table[key], maxTime, now)
  }

  // Runs

  datatype Event =
    | Add(key: Key, grp: set<nat>, waits: bool, now: int)
    | Cleanup(force: bool, now: int)

  function Apply(table: Table, maxTime: nat, e: Event): Table {
    match e
    case Add(key, grp, waits, now) => Added(table, maxTime, key, grp, waits, now)
    case Cleanup(force, now) => Cleaned(table, maxTime, now, force)
  }

  function Run(maxTime: nat, events: seq<Event>): Table {
    if events == [] then map[]
    else Apply(Run(maxTime, events[..|events| - 1]), maxTime, events[|events| - 1])
  }

  ghost predicate InOrder(events: seq<Event>) {
    forall i, j :: 0 <= i < j < |events| ==> events[i].now <= events[j].now
  }

  /** The entry still shows a hit for these groups at time t. */
  ghost predicate Remembers(table: Table, key: Key, grp: set<nat>, t: int) {
    && key in table && table[key].time >= t && grp <= table[key].grp
    && (grp <= table[key].recent || table[key].rotated >= t)
  }

  lemma AddRemembers(table: Table, maxTime: nat, e: Event, key: Key, grp: set<nat>, t: int)
    requires e.Add? && e.now >= t && maxTime > 0
    requires Remembers(table, key, grp, t) || (e.key == key && e.grp == grp && e.waits && e.now == t)
    ensures Remembers(Apply(table, maxTime, e), key, grp, t)
  {
  }

  lemma CleanupRemembers(table: Table, maxTime: nat, e: Event, key: Key, grp: set<nat>, t: int)
    requires e.Cleanup? && !e.force && t <= e.now < t + maxTime * 1000
    requires Remembers(table, key, grp, t)
    ensures Remembers(Apply(table, maxTime, e), key, grp, t)
  {
    var h := table[key];
    assert e.now - h.time <= maxTime * 1000;
    if e.now - h.rotated >= maxTime * 1000 {
      assert h.rotated < t;
    }
  }

  /** Hit i of a run is remembered to its end, if that is less than the maximum away. */
  lemma {:induction false} HitIsRemembered(maxTime: nat, events: seq<Event>, i: nat)
    requires InOrder(events) && i < |events| && events[i].Add? && events[i].waits && maxTime > 0
    requires forall j :: i < j < |events| && events[j].Cleanup? ==> !events[j].force
    requires events[|events| - 1].now < events[i].now + maxTime * 1000
    ensures Remembers(Run(maxTime, events), events[i].key, events[i].grp, events[i].now)
  {
    hide Apply, Remembers;
    var front, e := events[..|events| - 1], events[|events| - 1];
    if i < |front| {
      assert forall j :: 0 <= j < |front| ==> front[j] == events[j];
      HitIsRemembered(maxTime, front, i);
      if e.Cleanup? {
        CleanupRemembers(Run(maxTime, front), maxTime, e, events[i].key, events[i].grp, events[i].now);
      } else {
        AddRemembers(Run(maxTime, front), maxTime, e, events[i].key, events[i].grp, events[i].now);
      }
    } else {
      AddRemembers(Run(maxTime, front), maxTime, e, events[i].key, events[i].grp, events[i].now);
    }
  }

  /** Completeness: however additions and clean-ups interleave, a key that a client of some
      groups added less than the maximum ago is found for every client that shares one. */
  lemma {:induction false} RecentHitIsFound(maxTime: nat, events: seq<Event>, i: nat, grp: set<nat>, now: int)
    requires InOrder(events) && i < |events| && events[i].Add? && events[i].waits
    requires forall j :: i < j < |events| && events[j].Cleanup? ==> !events[j].force
    requires events[|events| - 1].now <= now < events[i].now + maxTime * 1000
    requires grp == {} || grp * events[i].grp != {}
    ensures Check(Run(maxTime, events), maxTime, events[i].key, grp, now)
  {
    hide Run;
    HitIsRemembered(maxTime, events, i);
    if grp != {} {
      var g :| g in grp * events[i].grp;
      assert g in grp * Run(maxTime, events)[events[i].key].grp;
    }
  }

  predicate Adds(e: Event, key: Key) {
    e.Add? && e.waits && e.key == key
  }

  /** The latest of these times at which the key was added, if it was since it was last gone. */
  ghost predicate LastHit(events: seq<Event>, key: Key, time: int) {
    && (exists i :: 0 <= i < |events| && Adds(events[i], key) && events[i].now == time)
    && (forall i :: 0 <= i < |events| && Adds(events[i], key) ==> events[i].now <= time)
  }

  lemma {:induction false} NothingIsKept(events: seq<Event>)
    ensures Run(0, events) == map[]
  {
    if events == [] {
    } else {
      NothingIsKept(events[..|events| - 1]);
    }
  }

  lemma {:induction false} TimeIsLastHit(maxTime: nat, events: seq<Event>, key: Key)
    requires InOrder(events) && key in Run(maxTime, events)
    ensures LastHit(events, key, Run(maxTime, events)[key].time)
  {
    hide Expired;
    var front, e := events[..|events| - 1], events[|events| - 1];
    assert forall i :: 0 <= i < |front| ==> front[i] == events[i];
    if maxTime == 0 {
      NothingIsKept(events);
      assert false;
    } else if Adds(e, key) {
      assert events[|front|] == e;
    } else {
      TimeIsLastHit(maxTime, front, key);
      var i :| 0 <= i < |front| && Adds(front[i], key) && front[i].now == Run(maxTime, front)[key].time;
      assert events[i] == front[i];
    }
  }

  /** A key of the table is found exactly if its last hit is no more than the maximum ago, and the client or
      the entry has no groups or they share one. */
  lemma {:induction false} FoundExactlyWhen(maxTime: nat, events: seq<Event>, key: Key, grp: set<nat>, now: int)
    requires InOrder(events) && key in Run(maxTime, events)
    ensures Check(Run(maxTime, events), maxTime, key, grp, now)
            <==> && (exists time :: LastHit(events, key, time) && now - time <= maxTime * 1000)
                 && (grp == {} || Run(maxTime, events)[key].grp == {} || grp * Run(maxTime, events)[key].grp != {})
  {
    hide Run;
    TimeIsLastHit(maxTime, events, key);
  }

  /** A clean-up that is not forced keeps exactly the keys whose last hit is no more than one and a half
      times the maximum ago. */
  lemma {:induction false} CleanUpKeepsExactly(maxTime: nat, events: seq<Event>, now: int, key: Key)
    requires InOrder(events) && key in Run(maxTime, events)
    ensures exists time :: LastHit(events, key, time)
                           && (key in Run(maxTime, events + [Cleanup(false, now)])
                               <==> now - time <= (maxTime + maxTime / 2) * 1000)
    ensures key !in Run(maxTime, events + [Cleanup(true, now)])
  {
    hide LastHit;
    TimeIsLastHit(maxTime, events, key);
    assert (events + [Cleanup(false, now)])[..|events|] == events;
    assert (events + [Cleanup(true, now)])[..|events|] == events;
  }

  // Soundness

  ghost predicate Logged(events: seq<Event>, key: Key, time: int) {
    exists i :: 0 <= i < |events| && Adds(events[i], key) && events[i].now == time
  }

  ghost predicate LoggedGroup(events: seq<Event>, key: Key, g: nat) {
    exists i :: 0 <= i < |events| && Adds(events[i], key) && g in events[i].grp
  }

  ghost predicate Backed(events: seq<Event>, key: Key, h: Hit) {
    Logged(events, key, h.time) && h.recent <= h.grp && forall g :: g in h.grp ==> LoggedGroup(events, key, g)
  }

  lemma BackedByMore(front: seq<Event>, e: Event, key: Key, h: Hit)
    requires Backed(front, key, h)
    ensures Backed(front + [e], key, h)
  {
    var all := front + [e];
    var i :| 0 <= i < |front| && Adds(front[i], key) && front[i].now == h.time;
    assert all[i] == front[i];
    forall g | g in h.grp
      ensures LoggedGroup(all, key, g)
    {
      var j :| 0 <= j < |front| && Adds(front[j], key) && g in front[j].grp;
      assert all[j] == front[j];
    }
  }

  lemma HitIsBacked(front: seq<Event>, e: Event, h: Hit)
    requires e.Add? && e.waits
    requires Backed(front + [e], e.key, h) || (h.grp == {} && h.recent == {})
    ensures Backed(front + [e], e.key, HitBy(h, e.grp, e.now))
  {
    var all := front + [e];
    assert all[|front|] == e && Adds(e, e.key);
    forall g | g in h.grp + e.grp
      ensures LoggedGroup(all, e.key, g)
    {
      if g !in h.grp {
        assert g in all[|front|].grp;
      }
    }
  }

  lemma {:induction false} TableIsBacked(maxTime: nat, events: seq<Event>)
    ensures forall key :: key in Run(maxTime, events) ==> Backed(events, key, Run(maxTime, events)[key])
  {
    hide Backed, HitBy, Expired;
    if events == [] {
    } else {
      var front, e := events[..|events| - 1], events[|events| - 1];
      TableIsBacked(maxTime, front);
      var before, after := Run(maxTime, front), Run(maxTime, events);
      assert events == front + [e];
      forall key | key in after
        ensures Backed(events, key, after[key])
      {
        if key in before {
          BackedByMore(front, e, key, before[key]);
          if e.Cleanup? {
            RotatedIsBacked(events, key, before[key], maxTime, e.now);
          }
        }
        if e.Add? && maxTime != 0 && e.waits && key == e.key {
          HitIsBacked(front, e, if key in before then before[key] else Hit(0, e.now, {}, {}));
        }
      }
    }
  }

  lemma RotatedIsBacked(events: seq<Event>, key: Key, h: Hit, maxTime: nat, now: int)
    requires Backed(events, key, h)
    ensures Backed(events, key, Rotated(h, maxTime, now))
  {
  }

  /** Soundness: what is found was added no longer than the maximum ago, and an entry with
      groups is found only for groups one of its hits had. */
  lemma {:induction false} FoundWasHit(maxTime: nat, events: seq<Event>, key: Key, grp: set<nat>, now: int)
    requires Check(Run(maxTime, events), maxTime, key, grp, now)
    ensures exists i :: 0 <= i < |events| && Adds(events[i], key) && now - events[i].now <= maxTime * 1000
    ensures grp != {} && Run(maxTime, events)[key].grp != {} ==> exists g :: g in grp && LoggedGroup(events, key, g)
  {
    hide Run;
    TableIsBacked(maxTime, events);
    var h := Run(maxTime, events)[key];
    var i :| 0 <= i < |events| && Adds(events[i], key) && events[i].now == h.time;
    if grp != {} && h.grp != {} {
      var g :| g in grp * h.grp;
      assert LoggedGroup(events, key, g);
    }
  }

  // The bound

  lemma {:induction false} RunSnoc(maxTime: nat, events: seq<Event>, e: Event)
    ensures Run(maxTime, events + [e]) == Apply(Run(maxTime, events), maxTime, e)
  {
    assert (events + [e])[..|events|] == events;
  }

  function TwoRotations(maxTime: nat, key: Key): seq<Event> {
    var m := maxTime * 1000;
    [Add(key, {0}, true, 0), Add(key, {1}, true, m), Cleanup(false, m), Add(key, {2}, true, m), Cleanup(false, 2 * m)]
  }

  lemma {:induction false} AfterTwoRotations(maxTime: nat, key: Key)
    requires maxTime > 0
    ensures var table := Run(maxTime, TwoRotations(maxTime, key));
            key in table && table[key] == Hit(maxTime * 1000, 2 * maxTime * 1000, {2}, {})
  {
    hide Run;
    var m := maxTime * 1000;
    var a, b, c, d, e := Add(key, {0}, true, 0), Add(key, {1}, true, m), Cleanup(false, m), Add(key, {2}, true, m),
      Cleanup(false, 2 * m);
    RunOfNothing(maxTime);
    RunSnoc(maxTime, [], a);
    RunSnoc(maxTime, [a], b);
    RunSnoc(maxTime, [a, b], c);
    RunSnoc(maxTime, [a, b, c], d);
    RunSnoc(maxTime, [a, b, c, d], e);
    assert [] + [a] == [a] && [a] + [b] == [a, b] && [a, b] + [c] == [a, b, c] && [a, b, c] + [d] == [a, b, c, d]
           && [a, b, c, d] + [e] == [a, b, c, d, e];
    assert Run(maxTime, [a])[key] == Hit(0, 0, {0}, {0});
    assert Run(maxTime, [a, b])[key] == Hit(m, 0, {0, 1}, {0, 1});
    assert Run(maxTime, [a, b, c])[key] == Hit(m, m, {0, 1}, {});
    assert Run(maxTime, [a, b, c, d])[key] == Hit(m, m, {0, 1, 2}, {2});
  }

  /** Two rotations fit into exactly the maximum: at that age a group may already be dropped,
      though the entry is still there and young enough. */
  lemma {:induction false} BoundIsSharp(maxTime: nat, key: Key)
    requires maxTime > 0
    ensures var m, events := maxTime * 1000, TwoRotations(maxTime, key);
            && Recent(maxTime, events, 1, {1}, 2 * m, m)
            && !Check(Run(maxTime, events), maxTime, key, {1}, 2 * m)
            && Check(Run(maxTime, events), maxTime, key, {2}, 2 * m)
  {
    hide Run;
    AfterTwoRotations(maxTime, key);
    assert 1 in {1} * TwoRotations(maxTime, key)[1].grp;
  }

  /** Hit i of a run without forced clean-ups behind it, asked for at time now by a client that
      shares a group with it, is age old. */
  ghost predicate Recent(maxTime: nat, events: seq<Event>, i: nat, grp: set<nat>, now: int, age: int) {
    && InOrder(events) && i < |events| && events[i].Add? && events[i].waits && maxTime > 0
    && (forall j :: i < j < |events| && events[j].Cleanup? ==> !events[j].force)
    && events[|events| - 1].now <= now && now == events[i].now + age
    && grp * events[i].grp != {}
  }

  /** Whatever happens meanwhile, hits of this age are found. */
  ghost predicate AlwaysFound(maxTime: nat, age: int) {
    forall events: seq<Event>, i: nat, grp, now :: Recent(maxTime, events, i, grp, now, age) ==>
      Check(Run(maxTime, events), maxTime, events[i].key, grp, now)
  }

  lemma {:induction false} OldHitIsNotFound(maxTime: nat, key: Key, age: int)
    requires age > maxTime * 1000 > 0
    ensures var events := [Add(key, {1}, true, 0)];
            Recent(maxTime, events, 0, {1}, age, age) && !Check(Run(maxTime, events), maxTime, key, {1}, age)
  {
    RunOfNothing(maxTime);
    RunSnoc(maxTime, [], Add(key, {1}, true, 0));
    assert [] + [Add(key, {1}, true, 0)] == [Add(key, {1}, true, 0)];
    assert 1 in {1} * {1};
  }

  /** A hit is found for every client that shares a group with it, after every continuation, if
      and only if it is younger than the maximum. */
  lemma {:induction false} FoundExactlyWhenYounger(maxTime: nat, age: nat)
    requires maxTime > 0
    ensures AlwaysFound(maxTime, age) <==> age < maxTime * 1000
  {
    hide Run, Check;
    var key := Key(0, 0, 0);
    if age < maxTime * 1000 {
      forall events: seq<Event>, i: nat, grp, now | Recent(maxTime, events, i, grp, now, age)
        ensures Check(Run(maxTime, events), maxTime, events[i].key, grp, now)
      {
        RecentHitIsFound(maxTime, events, i, grp, now);
      }
    } else if age == maxTime * 1000 {
      BoundIsSharp(maxTime, key);
      assert TwoRotations(maxTime, key)[1].key == key;
    } else {
      OldHitIsNotFound(maxTime, key, age);
      assert [Add(key, {1}, true, 0)][0].key == key;
    }
  }

  lemma {:induction false} RunOfNothing(maxTime: nat)
    ensures Run(maxTime, []) == map[]
  {
  }

  // The table in memory

  /** The hash table and the list of its entries; log records what has happened to it. */
  class Cache {
    const maxTime: nat
    var table: Table
    var order: seq<Key>
    ghost var log: seq<Event>

    ghost predicate Valid()
      reads this
    {
      table == Run(maxTime, log) && (forall key :: key in table <==> key in order) && forall i, j :: 0 <= i < j < |order| ==> order[i] != order[j]
    }

    constructor (maxTime: nat)
      ensures Valid() && log == [] && this.maxTime == maxTime
    {
      this.maxTime := maxTime;
      table, order, log := map[], [], [];
    }

    /** A hit younger than the maximum is found for every client that shares a group with it;
        what is found was hit no longer than the maximum ago, and, unless client or entry have no
        group, by one of the client's groups. */
    method Lookup(key: Key, grp: set<nat>, now: int) returns (found: bool)
      requires Valid()
      ensures forall i: nat, age :: Recent(maxTime, log, i, grp, now, age) && age < maxTime * 1000 && log[i].key == key ==>
                found
      ensures found ==> exists i :: 0 <= i < |log| && Adds(log[i], key) && now - log[i].now <= maxTime * 1000
      ensures found ==>
                key in table && (grp != {} && table[key].grp != {} ==> exists g :: g in grp && LoggedGroup(log, key, g))
    {
      found := false;
      if key in table {
        var gone := now - table[key].time;
        found := gone <= maxTime * 1000 && (grp == {} || table[key].grp == {} || grp * table[key].grp != {});
      }
      assert found <==> Check(Run(maxTime, log), maxTime, key, grp, now);
      hide Run, Check;
      forall i: nat, age | Recent(maxTime, log, i, grp, now, age) && age < maxTime * 1000 && log[i].key == key
        ensures found
      {
        RecentHitIsFound(maxTime, log, i, grp, now);
      }
      if found {
        FoundWasHit(maxTime, log, key, grp, now);
      }
    }

    method AddHit(key: Key, grp: set<nat>, waits: bool, now: int)
      requires Valid()
      modifies this
      ensures Valid() && log == old(log) + [Add(key, grp, waits, now)]
      ensures table == Added(old(table), maxTime, key, grp, waits, now)
    {
      hide Run;
      RunSnoc(maxTime, log, Add(key, grp, waits, now));
      log := log + [Add(key, grp, waits, now)];
      if maxTime == 0 || !waits {
        return;
      }
      if key !in table {
        table := table[key := Hit(0, now, {}, {})];
        order := order + [key];
      }
      var h := table[key];
      table := table[key := Hit(now, h.rotated, h.grp + grp, h.recent + grp)];
    }

    /** The loop over all entries, removing or rotating each */
    method CleanUp(now: int, force: bool)
      requires Valid()
      modifies this
      ensures Valid() && log == old(log) + [Cleanup(force, now)]
      ensures table == Cleaned(old(table), maxTime, now, force)
    {
      hide CleanedOf, Cleaned, Run;
      RunSnoc(maxTime, log, Cleanup(force, now));
      var timeout, cleanGrp := (maxTime + maxTime / 2) * 1000, maxTime * 1000;
      var rest: seq<Key> := [];
      ghost var before, done := table, {};
      NothingCleaned(before, maxTime, now, force);
      for i := 0 to |order|
        invariant log == old(log) && order == old(order) && forall m, n :: 0 <= m < n < |order| ==> order[m] != order[n]
        invariant table == CleanedOf(before, done, maxTime, now, force)
        invariant forall m :: 0 <= m < |order| ==> (order[m] in done <==> m < i)
        invariant forall key :: key in rest ==> key in table && key in done
        invariant forall key :: key in table && key in done ==> key in rest
        invariant forall m, n :: 0 <= m < n < |rest| ==> rest[m] != rest[n]
      {
        var key := order[i];
        assert key in before by { assert key in order; }
        OneCleaned(before, done, key, maxTime, now, force);
        var h := table[key];
        if force || now - h.time > timeout {
          table := table - {key};
        } else {
          if now - h.rotated >= cleanGrp {
            table := table[key := Hit(h.time, now, h.recent, {})];
          } else {
            assert table[key := h] == table;
          }
          rest := rest + [key];
        }
        done := done + {key};
      }
      AllCleaned(before, done, maxTime, now, force);
      CleanedKeys(before, maxTime, now, force);
      order := rest;
      log := log + [Cleanup(force, now)];
    }
  }

  /** A table some of whose entries have been visited. */
  ghost function CleanedOf(before: Table, done: set<Key>, maxTime: nat, now: int, force: bool): Table {
    map key | key in before && (key in done ==> !force && !Expired(before[key], maxTime, now)) ::
      if key in done then Rotated(before[key], maxTime, now) else before[key]
  }

  lemma NothingCleaned(before: Table, maxTime: nat, now: int, force: bool)
    ensures CleanedOf(before, {}, maxTime, now, force) == before
  {
  }

  lemma OneCleaned(before: Table, done: set<Key>, key: Key, maxTime: nat, now: int, force: bool)
    requires key in before && key !in done
    ensures var table := CleanedOf(before, done, maxTime, now, force);
            && key in table && table[key] == before[key]
            && CleanedOf(before, done + {key}, maxTime, now, force) ==
                 if force || Expired(before[key], maxTime, now) then table - {key}
                 else table[key := Rotated(before[key], maxTime, now)]
  {
    hide Expired, Rotated;
  }

  lemma AllCleaned(before: Table, done: set<Key>, maxTime: nat, now: int, force: bool)
    requires forall key :: key in before ==> key in done
    ensures CleanedOf(before, done, maxTime, now, force) == Cleaned(before, maxTime, now, force)
  {
    hide Expired, Rotated;
  }

  lemma CleanedKeys(before: Table, maxTime: nat, now: int, force: bool)
    ensures forall key :: key in Cleaned(before, maxTime, now, force) ==> key in before
  {
  }
}
