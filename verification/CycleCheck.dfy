/** The control-word cycle checker: a bounded list of learned channels, newest first, each
    with a learning stage, the half that must stay, and a ring of its last 15 requests
    (oscam/module-cw-cycle-check.c:12-187, 189-683). */
module CycleCheck {
  import opened Bytes

  // Data

  /** struct s_cwc_md5 */
  datatype Stored = Stored(md5: bytes, csp: nat, cw: ControlWord)

  const RING := 15

  type Ring = r: seq<Stored> | |r| == RING witness seq(RING, _ => Blank())

  function Blank(): Stored {
    Stored(Zeros(16), 0, Zeros(16))
  }

  datatype Channel = Channel(caid: nat, provid: nat, sid: nat, chid: nat)

  /** struct s_cw_cycle_check */
  datatype Entry = Entry(
    cw: ControlWord, time: int, locktime: int, channel: Channel, ecmlen: int,
    stage: int, cycletime: int, dyncycletime: int, next: int,
    ring: Ring, slot: nat, retired: bool, repeat: int)

  /** What the check reads of an ECM request and its answer. */
  datatype Request = Request(
    channel: Channel, ecmlen: int, md5: bytes, csp: nat, now: int, cw: ControlWord,
    notFound: bool, biss: bool, videoguard: bool,
    fixedFallback: bool,       // chk_is_pos_fallback
    fallbackSeconds: int,      // get_fallbacktimeout / 1000
    ceTime: byte, ceNext: byte) // cycle info received over CacheEx

  datatype Config = Config(
    maxList: int, dropOld: bool, sensitive: int, allowBadFromFallback: bool, useCacheEx: bool, keepMinutes: int)

  // Verdicts of checkcwcycle_int
  const CYCLE_OK := 0
  const BAD_CYCLE := 1
  const TOO_OLD := 2
  const IGNORED := 3
  const SAME_CW := 4
  const BAD_BUT_FALLBACK := 5
  const LEARNING := 6
  const LEARNING_HALF := 7
  const FROM_CACHEEX := 8

  // C integers

  function Int16(x: int): int {
    (x + 0x8000) % 0x1_0000 - 0x8000
  }

  /** memcmp: the difference of the first bytes that differ */
  function Compare(a: bytes, b: bytes): (r: int)
    requires |a| == |b|
    ensures -256 < r < 256 && (r == 0 <==> a == b)
  {
    if a == [] then 0
    else if a[0] != b[0] then a[0] - b[0]
    else
      assert a == [a[0]] + a[1..] && b == [b[0]] + b[1..];
      Compare(a[1..], b[1..])
  }

  // Checks on control words and hashes

  /** checkECMD5CW, chk_is_null_CW negated: some byte is not zero */
  predicate Filled(b: bytes) {
    exists i :: 0 <= i < |b| && b[i] != 0
  }

  /** CW0 or CW1 */
  function Half(cw: ControlWord, which: int): bytes {
    if which == 0 then cw[..8] else cw[8..]
  }

  /** checkvalidCW */
  predicate ValidCw(r: Request) {
    && (Filled(r.cw) || r.biss) && !r.notFound
    && ((Filled(Half(r.cw, 0)) && Filled(Half(r.cw, 1))) || !r.videoguard)
  }

  /** countCWpart: equal bytes in the half that must change */
  function SameBytes(a: bytes, b: bytes): nat
    requires |a| == |b|
  {
    if a == [] then 0
    else SameBytes(a[..|a| - 1], b[..|b| - 1]) + (if a[|a| - 1] == b[|b| - 1] then 1 else 0)
  }

  predicate SameRequest(r: Request, s: Stored) {
    || (Filled(r.md5) && Filled(s.md5) && r.md5 == s.md5)
    || (r.csp != 0 && s.csp != 0 && r.csp == s.csp)
  }

  /** The first slot of the ring that holds this request, or RING. */
  function FindInRing(r: Request, ring: Ring, k: nat): (j: nat)
    requires k <= RING
    ensures k <= j <= RING
    ensures j < RING ==> SameRequest(r, ring[j])
    ensures forall i :: k <= i < j ==> !SameRequest(r, ring[i])
    decreases RING - k
  {
    if k == RING || SameRequest(r, ring[k]) then k else FindInRing(r, ring, k + 1)
  }

  // The list

  /** The lookup condition: same channel, and ECM lengths equal unless one is unknown. */
  predicate Matches(e: Entry, r: Request) {
    e.channel == r.channel && (r.ecmlen == 0 || e.ecmlen == 0 || e.ecmlen == r.ecmlen)
  }

  function FindEntry(list: seq<Entry>, r: Request): (k: nat)
    ensures k <= |list|
    ensures k < |list| ==> Matches(list[k], r)
    ensures forall i :: 0 <= i < k ==> !Matches(list[i], r)
  {
    if list == [] || Matches(list[0], r) then 0 else 1 + FindEntry(list[1..], r)
  }

  // Judging a request against a copy of its entry

  /** The changed copy, whether it is to be stored, and the verdict. */
  datatype Judged = Judged(entry: Entry, store: bool, verdict: int)

  predicate HasCacheExInfo(r: Request) {
    r.ceTime > 0 && r.ceNext < 2
  }

  function VerdictOfSame(c: Config, e: Entry, r: Request): int {
    if r.now - e.time >= e.cycletime - e.dyncycletime then (if c.dropOld then TOO_OLD else SAME_CW) else SAME_CW
  }

  /** The half named by `next` is unchanged and the other one is new enough. */
  predicate CycleGood(c: Config, e: Entry, r: Request) {
    && Half(e.cw, e.next) == Half(r.cw, e.next)
    && (c.sensitive == 0 || SameBytes(Half(e.cw, 1 - e.next), Half(r.cw, 1 - e.next)) < c.sensitive)
  }

  /** The window in which a fully learned entry is checked. */
  predicate InWindow(e: Entry, r: Request) {
    e.stage == 3 && e.next < 2 && r.now - e.time < e.cycletime * 2 - e.dyncycletime - 1
  }

  /** Which half repeats between the stored word and the new one: the other is 2. */
  function NextHalf(e: Entry, cw: ControlWord): int {
    var n := ToInt8(Compare(e.cw[..8], cw[..8]));
    var m := ToInt8(Compare(e.cw[8..], cw[8..]));
    var next := if m == 0 then 0 else if n == 0 then 1 else e.next;
    if n == m || !Filled(cw) then 2 else next
  }

  predicate Steady(e: Entry, r: Request) {
    -2 < Int16(r.now - e.time - e.cycletime) < 2
  }

  /** One step of the learning stages 0 to 4. */
  function LearnStage(e: Entry, r: Request, verdict: int): (Entry, int) {
    var gap := r.now - e.time;
    if e.stage <= 0 then
      (if Steady(e, r) then e.(cycletime := gap, stage := e.stage + 1) else e, verdict)
    else if e.stage == 1 then
      (if Steady(e, r) then e.(cycletime := gap, stage := 2) else e.(stage := 0), verdict)
    else if e.stage == 2 then
      if Steady(e, r) && e.cycletime > 0 then
        var next := NextHalf(e, r.cw);
        (e.(cycletime := gap, next := next, stage := if next < 2 then 3 else 1), verdict)
      else (e.(stage := 1), verdict)
    else if e.stage == 4 then
      var next := NextHalf(e, r.cw);
      var stage := if next < 2 then 3 else if e.repeat > 12 then 1 else 4;
      (e.(next := next, stage := stage, repeat := ToInt8(e.repeat + 1)),
       if verdict == IGNORED then IGNORED else LEARNING_HALF)
    else (e, verdict)
  }

  /** The part of the check after the cycle test: learn unless the entry is locked, and
      track how late answers come. */
  function Learn(e: Entry, r: Request, verdict: int): Judged {
    var (learned, v) := if r.now > e.locktime then LearnStage(e, r, verdict) else (e, verdict);
    var timed :=
      if r.now <= e.locktime then learned
      else if learned.stage == 3 then learned.(locktime := 0, repeat := 0)
      else
        learned.(cycletime := if learned.stage < 3 then r.now - e.time else learned.cycletime,
                 locktime := r.now + r.fallbackSeconds);
    var late := r.now - e.time - timed.cycletime;
    Judged(if timed.stage == 3 then timed.(dyncycletime := if late > 0 then late else 0) else timed,
           r.now > e.locktime || timed.stage == 3, v)
  }

  /** A stage-3 entry that was not answered in time goes back to learning. */
  function Fallen(c: Config, e: Entry, r: Request): Entry {
    var keep := c.keepMinutes > 0 && r.now - e.time < c.keepMinutes * 60;
    e.(stage := if keep then 4 else 2, cw := Zeros(16), next := 2)
  }

  function Judge(c: Config, e: Entry, r: Request): Judged {
    if c.useCacheEx && HasCacheExInfo(r) then
      var told := e.(stage := 3, cycletime := r.ceTime, next := r.ceNext);
      if e.cw == r.cw then Judged(told, false, VerdictOfSame(c, told, r)) else Judged(told, true, FROM_CACHEEX)
    else if InWindow(e, r) then
      if e.cw == r.cw then Judged(e, false, VerdictOfSame(c, e, r))
      else if CycleGood(c, e, r) then Learn(e.(next := 1 - e.next), r, CYCLE_OK)
      else
        var j := FindInRing(r, e.ring, 0);
        if j < RING then
          Judged(e, false, if !c.dropOld && e.ring[j].cw == r.cw then SAME_CW else TOO_OLD)
        else if c.allowBadFromFallback && r.fixedFallback then
          Judged(e.(stage := 4, next := 2), true, BAD_BUT_FALLBACK)
        else Judged(e, false, BAD_CYCLE)
    else if e.stage == 3 then Learn(Fallen(c, e, r), r, IGNORED)
    else Learn(e, r, LEARNING)
  }

  /** What an accepted word's request is told for its announcement: the half that must change next
      and, unless it does not fit seven bits, the cycle time. */
  datatype Announced = Announced(next: int, cycletime: Option<byte>)

  function Announce(e: Entry): Announced {
    Announced(1 - e.next,
              if e.cycletime < 128 && !(e.channel.caid == 0x0100 && e.channel.provid == 0x6A) then Some(e.cycletime % 256) else None)
  }

  function Told(c: Config, e: Entry, r: Request): Option<Announced> {
    if !(c.useCacheEx && HasCacheExInfo(r)) && InWindow(e, r) && e.cw != r.cw && CycleGood(c, e, r) then Some(Announce(e))
    else None
  }

  // Storing

  function Record(r: Request): Stored {
    Stored(r.md5, r.csp, r.cw)
  }

  function NewEntry(c: Config, r: Request): Entry {
    var told := c.useCacheEx && HasCacheExInfo(r);
    Entry(r.cw, r.now, r.now + r.fallbackSeconds, r.channel, r.ecmlen,
          if told then 3 else 0, if told then r.ceTime else 99, 0, if told then r.ceNext else 2,
          seq(RING, _ => Blank())[0 := Record(r)], 0, false, 0)
  }

  /** The judged copy as it is put on top of the list. */
  function Updated(e: Entry, r: Request): Entry {
    var slot := if e.slot + 1 > 14 then 0 else e.slot + 1;
    e.(retired := false, cw := r.cw, time := r.now, slot := slot, ring := e.ring[slot := Record(r)], ecmlen := r.ecmlen)
  }

  /** The list, its counter, the time of the last cleaning, and the stored-request history
      of each entry (which the C code does not keep; its ring is compared with it). */
  datatype State = State(list: seq<Entry>, size: int, cleaned: int, history: seq<seq<Stored>>)

  predicate Aligned(s: State) {
    |s.history| == |s.list|
  }

  function MarkOld(list: seq<Entry>, k: nat): seq<Entry>
    requires k < |list|
  {
    list[k := list[k].(retired := true)]
  }

  /** checkcwcycle_int */
  function Check(c: Config, s: State, r: Request): (State, int)
    requires Aligned(s)
  {
    if !ValidCw(r) then (s, IGNORED)
    else
      var k := FindEntry(s.list, r);
      if k == |s.list| then
        if s.size <= c.maxList then
          (s.(list := [NewEntry(c, r)] + s.list, size := s.size + 1, history := [[Record(r)]] + s.history),
           if HasCacheExInfo(r) then FROM_CACHEEX else LEARNING)
        else (s, LEARNING)
      else
        var e := s.list[k];
        var marked := s.(list := MarkOld(s.list, k), size := if e.retired then s.size else s.size - 1);
        var j := Judge(c, e, r);
        (if j.store then
           marked.(list := [Updated(j.entry, r)] + marked.list, size := marked.size + 1,
                   history := [s.history[k] + [Record(r)]] + s.history)
         else marked,
         j.verdict)
  }

  /** What the check writes back to the request. */
  function Announcement(c: Config, s: State, r: Request): Option<Announced> {
    var k := FindEntry(s.list, r);
    if ValidCw(r) && k < |s.list| then Told(c, s.list[k], r) else None
  }

  /** Seconds an entry may stay without being renewed. */
  function KeepSeconds(c: Config): int {
    c.keepMinutes * 60 + 30
  }

  predicate Fresh(c: Config, e: Entry, now: int) {
    now - e.time <= KeepSeconds(c)
  }

  /** Index of the first entry that is too old. */
  function FirstStale(c: Config, list: seq<Entry>, now: int): (k: nat)
    ensures k <= |list|
    ensures k < |list| ==> !Fresh(c, list[k], now)
    ensures forall i :: 0 <= i < k ==> Fresh(c, list[i], now)
  {
    if list == [] || !Fresh(c, list[0], now) then 0 else 1 + FirstStale(c, list[1..], now)
  }

  /** How many entries are not marked old. */
  function Current(list: seq<Entry>): nat {
    if list == [] then 0 else Current(list[..|list| - 1]) + (if list[|list| - 1].retired then 0 else 1)
  }

  /** cleanupcwcycle: at most every two minutes, cut the list at its first stale entry */
  function Clean(c: Config, s: State, now: int): State
    requires Aligned(s)
  {
    if s.cleaned + 120 > now then s
    else
      var k := FirstStale(c, s.list, now);
      State(s.list[..k], s.size - Current(s.list[k..]), now, s.history[..k])
  }
}
