/**
 * The availability finder of `/go` (bot.js `recommendSlotsByInput`), the
 * per-party conflict annotation (`computeConflicts`) and the input checks
 * `/go` makes before searching. The store snapshot that `loadStore()`
 * returns is the parameter `busy`; the roster `USER_KEYS` is `roster`.
 *
 * The loops read and write clock times through the parameter `clock`,
 * which bot.js fixes to `normalizeTimeToMin` and `fromMin` (`BotClock`
 * here): their contracts hold for every clock, and the lemmas at the end
 * of the module apply them to `BotClock`.
 */
module Availability {
  import opened Outcomes
  import opened JsBuiltins
  import opened TimeUtil
  import opened Seqs
  import opened Busy
  import opened GoDay

  /** The argument object of `recommendSlotsByInput`. */
  datatype SlotQuery = SlotQuery(
    date: string,
    from: string,
    to: string,
    durationMin: int,
    stepMin: int,
    maxCandidates: int)

  /** A candidate window `{ start, end }`. */
  datatype Slot = Slot(start: string, end: string)

  /** How clock times are read as minute codes and minute codes written as clock times. */
  datatype Clock = Clock(read: string -> Num, show: nat -> string)

  /** bot.js's clock: `normalizeTimeToMin` and `fromMin`. */
  const BotClock := Clock(NormalizeTimeToMin, FromMin)

  /** The minute code of a well-formed time. */
  function MinuteOf(t: string): (m: nat)
    requires IsHHMM(t)
    ensures NormalizeTimeToMin(t) == Finite(m) && m <= 1440
  {
    NormalizeRange(t);
    NormalizeTimeToMin(t).v
  }

  /** The candidate for the window `[t, t + d)`; the end of the day is written `24:00`. */
  function SlotAt(clock: Clock, t: nat, d: nat): Slot {
    Slot(clock.show(t), if t + d == 1440 then "24:00" else clock.show(t + d))
  }

  /** The candidates for the windows starting at `ts`, in that order. */
  function SlotsAt(clock: Clock, ts: seq<nat>, d: nat): (r: seq<Slot>)
    ensures |r| == |ts|
  {
    if ts == [] then [] else SlotsAt(clock, ts[..|ts| - 1], d) + [SlotAt(clock, ts[|ts| - 1], d)]
  }

  lemma SlotsAtSnoc(clock: Clock, ts: seq<nat>, t: nat, d: nat)
    ensures SlotsAt(clock, ts + [t], d) == SlotsAt(clock, ts, d) + [SlotAt(clock, t, d)]
  {
    assert (ts + [t])[..|ts|] == ts;
  }

  lemma {:induction false} SlotsAtIndex(clock: Clock, ts: seq<nat>, d: nat)
    ensures forall i :: 0 <= i < |ts| ==> SlotsAt(clock, ts, d)[i] == SlotAt(clock, ts[i], d)
  {
    if ts != [] {
      SlotsAtIndex(clock, ts[..|ts| - 1], d);
    }
  }

  /** At most this many candidates: the length check follows the push, so never fewer than one. */
  function Cap(maxCandidates: int): nat {
    if maxCandidates < 1 then 1 else maxCandidates
  }

  /** Busy record `b`, its times read by `clock.read`, overlaps the window `[s, e)`. */
  predicate Collides(clock: Clock, b: BusyRecord, s: Num, e: Num) {
    Overlap(s, e, clock.read(b.start), clock.read(b.end))
  }

  /** Some roster party has a busy interval on `date` that overlaps `[s, e)`. */
  ghost predicate Blocked(clock: Clock, busy: seq<BusyRecord>, roster: seq<UserKey>, date: string,
                          s: int, e: int) {
    exists b :: b in busy && b.date == date && b.userKey in roster && Collides(clock, b, Finite(s), Finite(e))
  }

  /** `t` is a grid start in `[fromM, toM - d]` whose window is free for the whole roster. */
  ghost predicate Feasible(clock: Clock, busy: seq<BusyRecord>, roster: seq<UserKey>, date: string,
                           fromM: int, toM: int, d: int, step: int, t: int) {
    step > 0 && fromM <= t && (t - fromM) % step == 0 && t + d <= toM
    && !Blocked(clock, busy, roster, date, t, t + d)
  }

  // ----- the grid -----

  lemma MulBounds(a: int, step: int)
    requires step > 0
    ensures a >= 1 ==> step * a >= step
    ensures a <= 0 ==> step * a <= 0
  {
  }

  lemma MultipleMod(k: int, step: int)
    requires step > 0
    ensures (k * step) % step == 0
  {
    var y := k * step;
    var q, r := y / step, y % step;
    assert y == step * q + r;
    assert step * (k - q) == r;
    MulBounds(k - q, step);
    MulBounds(q - k, step);
  }

  /** One step along the grid stays on the grid. */
  lemma GridStep(x: int, step: int)
    requires step > 0 && x % step == 0
    ensures (x + step) % step == 0
  {
    var q := x / step;
    assert x + step == (q + 1) * step;
    MultipleMod(q + 1, step);
  }

  /** No grid point lies strictly between two neighbouring grid points. */
  lemma GridGap(fromM: int, step: int, t: int, u: int)
    requires step > 0 && fromM <= t < u
    requires (t - fromM) % step == 0 && (u - fromM) % step == 0
    ensures t + step <= u
  {
    var a, b := (t - fromM) / step, (u - fromM) / step;
    assert t - fromM == step * a;
    assert u - fromM == step * b;
    assert step * (b - a) == u - t;
    MulBounds(b - a, step);
  }

  /** bot.js's clock reads every candidate it writes back as the window `[t, t + d)`. */
  lemma SlotAtMinutes(t: nat, d: nat)
    ensures BotClock.read(SlotAt(BotClock, t, d).start) == Finite(t)
    ensures BotClock.read(SlotAt(BotClock, t, d).end) == Finite(t + d)
  {
    NormalizeFromMin(t);
    if t + d != 1440 {
      NormalizeFromMin(t + d);
    }
  }

  // ----- recommendSlotsByInput -----

  /** No busy interval of party `k` in `sameDate` overlaps `[s, e)`. */
  predicate FreeFor(clock: Clock, sameDate: seq<BusyRecord>, k: UserKey, s: int, e: int) {
    forall b :: b in sameDate && b.userKey == k ==> !Collides(clock, b, Finite(s), Finite(e))
  }

  /** The busy intervals of `k` that a filter of `sameDate` keeps are all of them. */
  lemma OwnedFree(clock: Clock, sameDate: seq<BusyRecord>, k: UserKey, s: int, e: int)
    requires forall j :: 0 <= j < |OwnedBy(sameDate, k)| ==>
               !Collides(clock, OwnedBy(sameDate, k)[j], Finite(s), Finite(e))
    ensures FreeFor(clock, sameDate, k, s, e)
  {
    forall b | b in sameDate && b.userKey == k
      ensures !Collides(clock, b, Finite(s), Finite(e))
    {
      assert b in OwnedBy(sameDate, k);
    }
  }

  /**
   * The innermost loop of `recommendSlotsByInput`: one party's busy
   * intervals of the day, stopping at the first that overlaps the window.
   */
  method PersonIsFree(clock: Clock, personBusy: seq<BusyRecord>, startM: int, endM: int) returns (ok: bool)
    ensures ok <==> forall j :: 0 <= j < |personBusy| ==>
                      !Collides(clock, personBusy[j], Finite(startM), Finite(endM))
  {
    ok := true;
    var i := 0;
    while i < |personBusy|
      invariant 0 <= i <= |personBusy|
      invariant forall j :: 0 <= j < i ==> !Collides(clock, personBusy[j], Finite(startM), Finite(endM))
    {
      var b := personBusy[i];
      var bs := clock.read(b.start);
      var be := clock.read(b.end);
      if Overlap(Finite(startM), Finite(endM), bs, be) {
        ok := false;
        break;
      }
      i := i + 1;
    }
  }

  /** No busy interval in `sameDate` of any roster party overlaps `[s, e)`. */
  predicate WindowFree(clock: Clock, sameDate: seq<BusyRecord>, roster: seq<UserKey>, s: int, e: int) {
    forall b :: b in sameDate && b.userKey in roster ==> !Collides(clock, b, Finite(s), Finite(e))
  }

  lemma FreeForAll(clock: Clock, sameDate: seq<BusyRecord>, roster: seq<UserKey>, s: int, e: int)
    requires forall j :: 0 <= j < |roster| ==> FreeFor(clock, sameDate, roster[j], s, e)
    ensures WindowFree(clock, sameDate, roster, s, e)
  {
    forall b | b in sameDate && b.userKey in roster
      ensures !Collides(clock, b, Finite(s), Finite(e))
    {
      var j :| 0 <= j < |roster| && roster[j] == b.userKey;
      assert FreeFor(clock, sameDate, roster[j], s, e);
    }
  }

  lemma OwnedCollision(clock: Clock, sameDate: seq<BusyRecord>, roster: seq<UserKey>, p: nat, s: int, e: int)
    requires p < |roster|
    requires exists j :: 0 <= j < |OwnedBy(sameDate, roster[p])|
                         && Collides(clock, OwnedBy(sameDate, roster[p])[j], Finite(s), Finite(e))
    ensures !WindowFree(clock, sameDate, roster, s, e)
  {
    var personBusy := OwnedBy(sameDate, roster[p]);
    var j :| 0 <= j < |personBusy| && Collides(clock, personBusy[j], Finite(s), Finite(e));
    assert personBusy[j] in sameDate && personBusy[j].userKey == roster[p];
  }

  /**
   * The loop over the roster in `recommendSlotsByInput` for one window,
   * leaving it at the first party with an overlapping interval.
   * `sameDate` is the day's busy intervals.
   */
  method WindowIsFree(clock: Clock, sameDate: seq<BusyRecord>, roster: seq<UserKey>, startM: int, endM: int)
    returns (ok: bool)
    ensures ok <==> WindowFree(clock, sameDate, roster, startM, endM)
  {
    ok := true;
    var p := 0;
    while p < |roster|
      invariant 0 <= p <= |roster|
      invariant ok
      invariant forall j :: 0 <= j < p ==> FreeFor(clock, sameDate, roster[j], startM, endM)
    {
      var personBusy := OwnedBy(sameDate, roster[p]);
      ok := PersonIsFree(clock, personBusy, startM, endM);
      if !ok {
        OwnedCollision(clock, sameDate, roster, p, startM, endM);
        break;
      }
      OwnedFree(clock, sameDate, roster[p], startM, endM);
      p := p + 1;
    }
    if ok {
      FreeForAll(clock, sameDate, roster, startM, endM);
    }
  }

  /** Searching the day's intervals is searching the store for intervals on that day. */
  lemma BlockedOnDate(clock: Clock, busy: seq<BusyRecord>, roster: seq<UserKey>, date: string, s: int, e: int)
    ensures WindowFree(clock, OnDate(busy, date), roster, s, e) <==> !Blocked(clock, busy, roster, date, s, e)
  {
    if Blocked(clock, busy, roster, date, s, e) {
      var b :| b in busy && b.date == date && b.userKey in roster && Collides(clock, b, Finite(s), Finite(e));
      assert b in OnDate(busy, date);
    }
  }

  /**
   * The search has looked at every grid start below `t`: `starts` are the
   * feasible ones, in ascending order.
   */
  ghost predicate Searched(clock: Clock, busy: seq<BusyRecord>, roster: seq<UserKey>, date: string,
                           fromM: int, toM: int, d: int, step: int, t: int, starts: seq<nat>) {
    && (forall i :: 0 <= i < |starts| ==>
          starts[i] < t && Feasible(clock, busy, roster, date, fromM, toM, d, step, starts[i]))
    && (forall i, j :: 0 <= i < j < |starts| ==> starts[i] < starts[j])
    && (forall u :: Feasible(clock, busy, roster, date, fromM, toM, d, step, u) && u < t ==> u in starts)
  }

  /** Keeping a feasible grid start `t` extends the search to the next grid point. */
  lemma SearchKeep(clock: Clock, busy: seq<BusyRecord>, roster: seq<UserKey>, date: string,
                   fromM: int, toM: int, d: int, step: int, t: nat, starts: seq<nat>)
    requires step > 0 && fromM <= t && (t - fromM) % step == 0
    requires Searched(clock, busy, roster, date, fromM, toM, d, step, t, starts)
    requires Feasible(clock, busy, roster, date, fromM, toM, d, step, t)
    ensures Searched(clock, busy, roster, date, fromM, toM, d, step, t + step, starts + [t])
  {
    var s := starts + [t];
    forall u | Feasible(clock, busy, roster, date, fromM, toM, d, step, u) && u < t + step
      ensures u in s
    {
      if u > t {
        GridGap(fromM, step, t, u);
      } else if u < t {
        assert u in starts;
      }
    }
    forall i, j | 0 <= i < j < |s| ensures s[i] < s[j] {
      if j < |starts| {
        assert s[i] == starts[i] && s[j] == starts[j];
      }
    }
    forall i | 0 <= i < |s|
      ensures s[i] < t + step && Feasible(clock, busy, roster, date, fromM, toM, d, step, s[i])
    {
      if i < |starts| {
        assert s[i] == starts[i];
      }
    }
  }

  /** Passing over an infeasible grid start `t` extends the search to the next grid point. */
  lemma SearchSkip(clock: Clock, busy: seq<BusyRecord>, roster: seq<UserKey>, date: string,
                   fromM: int, toM: int, d: int, step: int, t: int, starts: seq<nat>)
    requires step > 0 && fromM <= t && (t - fromM) % step == 0
    requires Searched(clock, busy, roster, date, fromM, toM, d, step, t, starts)
    requires !Feasible(clock, busy, roster, date, fromM, toM, d, step, t)
    ensures Searched(clock, busy, roster, date, fromM, toM, d, step, t + step, starts)
  {
    forall u | Feasible(clock, busy, roster, date, fromM, toM, d, step, u) && u < t + step
      ensures u in starts
    {
      if u > t {
        GridGap(fromM, step, t, u);
      }
    }
  }

  /**
   * One pass of the loop body of `recommendSlotsByInput`: the window
   * `[s, s + durationMin)` is kept exactly when no roster party's interval
   * of the day overlaps it.
   */
  method ScanStep(clock: Clock, busy: seq<BusyRecord>, sameDate: seq<BusyRecord>, roster: seq<UserKey>,
                  q: SlotQuery, fromM: int, toM: int, s: nat, candidates: seq<Slot>, ghost starts: seq<nat>)
    returns (candidates': seq<Slot>, ghost starts': seq<nat>, kept: bool)
    requires sameDate == OnDate(busy, q.date)
    requires q.durationMin > 0 && q.stepMin > 0 && fromM <= s && (s - fromM) % q.stepMin == 0
    requires s + q.durationMin <= toM
    requires candidates == SlotsAt(clock, starts, q.durationMin)
    requires Searched(clock, busy, roster, q.date, fromM, toM, q.durationMin, q.stepMin, s, starts)
    ensures candidates' == SlotsAt(clock, starts', q.durationMin)
    ensures Searched(clock, busy, roster, q.date, fromM, toM, q.durationMin, q.stepMin,
                     s + q.stepMin, starts')
    ensures kept ==> |candidates'| == |candidates| + 1
    ensures !kept ==> candidates' == candidates && starts' == starts
  {
    ghost var d, step := q.durationMin, q.stepMin;
    var ok := WindowIsFree(clock, sameDate, roster, s, s + q.durationMin);
    BlockedOnDate(clock, busy, roster, q.date, s, s + q.durationMin);
    if ok {
      SearchKeep(clock, busy, roster, q.date, fromM, toM, d, step, s, starts);
      SlotsAtSnoc(clock, starts, s, d);
      candidates', starts', kept := candidates + [SlotAt(clock, s, q.durationMin)], starts + [s], true;
    } else {
      SearchSkip(clock, busy, roster, q.date, fromM, toM, d, step, s, starts);
      candidates', starts', kept := candidates, starts, false;
    }
  }

  /**
   * The loop of `recommendSlotsByInput` over the grid starts from `fromM`:
   * it stops at the first start whose window would end after `toM`, or once
   * `maxCandidates` windows are kept. `t` is the grid start it stopped at.
   */
  method ScanGrid(clock: Clock, busy: seq<BusyRecord>, roster: seq<UserKey>, q: SlotQuery,
                  fromM: nat, toM: int)
    returns (candidates: seq<Slot>, ghost starts: seq<nat>, ghost t: int)
    requires q.durationMin > 0 && q.stepMin > 0
    ensures |starts| <= Cap(q.maxCandidates)
    ensures |starts| < Cap(q.maxCandidates) ==> t + q.durationMin > toM
    ensures candidates != [] ==> fromM + q.durationMin <= toM
    ensures candidates == SlotsAt(clock, starts, q.durationMin)
    ensures Searched(clock, busy, roster, q.date, fromM, toM, q.durationMin, q.stepMin, t, starts)
  {
    var sameDate := OnDate(busy, q.date);
    candidates, starts := [], [];
    var s := fromM;
    while s + q.durationMin <= toM
      invariant fromM <= s && (s - fromM) % q.stepMin == 0
      invariant |starts| < Cap(q.maxCandidates)
      invariant candidates != [] ==> fromM + q.durationMin <= toM
      invariant candidates == SlotsAt(clock, starts, q.durationMin)
      invariant Searched(clock, busy, roster, q.date, fromM, toM, q.durationMin, q.stepMin, s, starts)
      decreases toM - s
    {
      var kept;
      candidates, starts, kept :=
        ScanStep(clock, busy, sameDate, roster, q, fromM, toM, s, candidates, starts);
      if kept && |candidates| >= q.maxCandidates {
        t := s + q.stepMin;
        return;
      }
      GridStep(s - fromM, q.stepMin);
      s := s + q.stepMin;
    }
    t := s;
  }

  /**
   * `recommendSlotsByInput`: walks `t` from `from` in steps of `stepMin`
   * while `[t, t + durationMin)` ends by `to`, keeping each window that no
   * roster party's busy interval of the day overlaps, and stops once
   * `maxCandidates` are kept. The result is exactly the first feasible grid
   * windows, in ascending order; `starts` are their start minutes.
   */
  method RecommendSlots(clock: Clock, busy: seq<BusyRecord>, roster: seq<UserKey>, q: SlotQuery)
    returns (candidates: seq<Slot>, ghost starts: seq<nat>)
    requires clock.read(q.from).Finite? && clock.read(q.from).v >= 0 && clock.read(q.to).Finite?
    requires q.durationMin > 0 && q.stepMin > 0
    ensures |starts| <= Cap(q.maxCandidates)
    ensures candidates == SlotsAt(clock, starts, q.durationMin)
    ensures forall i :: 0 <= i < |starts| ==>
              Feasible(clock, busy, roster, q.date, clock.read(q.from).v, clock.read(q.to).v,
                       q.durationMin, q.stepMin, starts[i])
    ensures forall i, j :: 0 <= i < j < |starts| ==> starts[i] < starts[j]
    ensures forall t ::
              Feasible(clock, busy, roster, q.date, clock.read(q.from).v, clock.read(q.to).v,
                       q.durationMin, q.stepMin, t)
              && (|starts| < Cap(q.maxCandidates) || t < starts[|starts| - 1])
              ==> t in starts
    ensures q.durationMin > clock.read(q.to).v - clock.read(q.from).v ==> candidates == []
  {
    ghost var t;
    candidates, starts, t := ScanGrid(clock, busy, roster, q, clock.read(q.from).v, clock.read(q.to).v);
  }

  // ----- computeConflicts -----

  /** The text `computeConflicts` records for an overlapping interval: `start~end`, then `(reason)` if any. */
  function ConflictNote(b: BusyRecord): string {
    b.start + "~" + b.end
    + (if b.reason.Some? && b.reason.value != "" then "(" + b.reason.value + ")" else "")
  }

  /** Notes for the busy intervals of party `k` on `date` that overlap `[s, e)`, in store order. */
  function ConflictNotes(clock: Clock, busy: seq<BusyRecord>, date: string, k: UserKey, s: Num, e: Num)
    : seq<string>
  {
    if busy == [] then []
    else
      (if busy[0].date == date && busy[0].userKey == k && Collides(clock, busy[0], s, e)
       then [ConflictNote(busy[0])] else [])
      + ConflictNotes(clock, busy[1..], date, k, s, e)
  }

  lemma {:induction false} ConflictNotesConcat(clock: Clock, a: seq<BusyRecord>, b: seq<BusyRecord>,
                                               date: string, k: UserKey, s: Num, e: Num)
    ensures ConflictNotes(clock, a + b, date, k, s, e)
            == ConflictNotes(clock, a, date, k, s, e) + ConflictNotes(clock, b, date, k, s, e)
  {
    if a == [] {
      assert a + b == b;
    } else {
      assert (a + b)[1..] == a[1..] + b;
      ConflictNotesConcat(clock, a[1..], b, date, k, s, e);
    }
  }

  /** Filtering by day and owner first, as `computeConflicts` does, changes no note. */
  lemma {:induction false} ConflictNotesOfSlots(clock: Clock, busy: seq<BusyRecord>, date: string, k: UserKey,
                                                s: Num, e: Num)
    ensures ConflictNotes(clock, OwnedBy(OnDate(busy, date), k), date, k, s, e)
            == ConflictNotes(clock, busy, date, k, s, e)
  {
    if busy != [] {
      var b0, tail := busy[0], busy[1..];
      ConflictNotesOfSlots(clock, tail, date, k, s, e);
      var h := if b0.date == date then [b0] else [];
      assert OnDate(busy, date) == h + OnDate(tail, date);
      FilterConcat(h, OnDate(tail, date), (b: BusyRecord) => b.userKey == k);
      assert OwnedBy(OnDate(busy, date), k) == OwnedBy(h, k) + OwnedBy(OnDate(tail, date), k);
      ConflictNotesConcat(clock, OwnedBy(h, k), OwnedBy(OnDate(tail, date), k), date, k, s, e);
      if b0.date == date && b0.userKey == k {
        assert OwnedBy(h, k) == [b0];
      } else {
        assert OwnedBy(h, k) == [];
      }
    }
  }

  /** One more interval of the party that day adds its note exactly when it overlaps. */
  lemma NoteStep(clock: Clock, slots: seq<BusyRecord>, j: nat, date: string, k: UserKey, s: Num, e: Num)
    requires j < |slots| && slots[j].date == date && slots[j].userKey == k
    ensures ConflictNotes(clock, slots[..j + 1], date, k, s, e)
            == ConflictNotes(clock, slots[..j], date, k, s, e)
               + (if Collides(clock, slots[j], s, e) then [ConflictNote(slots[j])] else [])
  {
    assert slots[..j + 1] == slots[..j] + [slots[j]];
    ConflictNotesConcat(clock, slots[..j], [slots[j]], date, k, s, e);
  }

  /**
   * The inner loop of `computeConflicts`: the notes of one party's busy
   * intervals of the day that overlap `[s, e)`.
   */
  method PartyConflicts(clock: Clock, slots: seq<BusyRecord>, date: string, k: UserKey, s: Num, e: Num)
    returns (notes: seq<string>)
    requires forall b :: b in slots ==> b.date == date && b.userKey == k
    ensures notes == ConflictNotes(clock, slots, date, k, s, e)
  {
    notes := [];
    for j := 0 to |slots|
      invariant notes == ConflictNotes(clock, slots[..j], date, k, s, e)
    {
      var b := slots[j];
      var bs := clock.read(b.start);
      var be := clock.read(b.end);
      NoteStep(clock, slots, j, date, k, s, e);
      if Overlap(s, e, bs, be) {
        notes := notes + [ConflictNote(b)];
      }
    }
    assert slots[..|slots|] == slots;
  }

  /** `for (const k of USER_KEYS) conflicts[k] = []` */
  method EmptyConflicts(roster: seq<UserKey>) returns (conflicts: map<UserKey, seq<string>>)
    ensures conflicts.Keys == set k | k in roster
    ensures forall k :: k in conflicts ==> conflicts[k] == []
  {
    conflicts := map[];
    for i := 0 to |roster|
      invariant conflicts.Keys == set k | k in roster[..i]
      invariant forall k :: k in conflicts ==> conflicts[k] == []
    {
      assert roster[..i + 1] == roster[..i] + [roster[i]];
      conflicts := conflicts[roster[i] := []];
    }
    assert roster[..|roster|] == roster;
  }

  /**
   * `computeConflicts(date, start, end)`: for every roster key, the notes of
   * that party's busy intervals on `date` that overlap `[start, end)`.
   * Roster keys are distinct (they are the keys of one object).
   */
  method ComputeConflicts(clock: Clock, busy: seq<BusyRecord>, roster: seq<UserKey>, date: string,
                          start: string, end: string)
    returns (conflicts: map<UserKey, seq<string>>)
    requires Distinct(roster)
    ensures conflicts.Keys == set k | k in roster
    ensures forall k :: k in roster ==>
              conflicts[k] == ConflictNotes(clock, busy, date, k, clock.read(start), clock.read(end))
  {
    var s := clock.read(start);
    var e := clock.read(end);
    conflicts := EmptyConflicts(roster);
    var sameDate := OnDate(busy, date);
    for i := 0 to |roster|
      invariant conflicts.Keys == set k | k in roster
      invariant forall j :: 0 <= j < i ==>
                  conflicts[roster[j]] == ConflictNotes(clock, busy, date, roster[j], s, e)
      invariant forall j :: i <= j < |roster| ==> conflicts[roster[j]] == []
    {
      var k := roster[i];
      var notes := PartyConflicts(clock, OwnedBy(sameDate, k), date, k, s, e);
      ConflictNotesOfSlots(clock, busy, date, k, s, e);
      conflicts := conflicts[k := conflicts[k] + notes];
      forall j | 0 <= j < |roster| && j != i ensures roster[j] != k {
      }
    }
  }

  // ----- what the annotation and the search agree on -----

  /** A party's conflict list is empty exactly when none of its intervals that day overlaps the window. */
  lemma {:induction false} ConflictNotesEmpty(clock: Clock, busy: seq<BusyRecord>, date: string, k: UserKey,
                                              s: Num, e: Num)
    ensures ConflictNotes(clock, busy, date, k, s, e) == []
            <==> forall b :: b in busy && b.date == date && b.userKey == k ==> !Collides(clock, b, s, e)
  {
    if busy != [] {
      ConflictNotesEmpty(clock, busy[1..], date, k, s, e);
      assert busy == [busy[0]] + busy[1..];
    }
  }

  /** A window is blocked for the search exactly when some roster party's conflict list is non-empty. */
  lemma BlockedIffConflict(clock: Clock, busy: seq<BusyRecord>, roster: seq<UserKey>, date: string,
                           s: int, e: int)
    ensures Blocked(clock, busy, roster, date, s, e)
            <==> exists k :: k in roster && ConflictNotes(clock, busy, date, k, Finite(s), Finite(e)) != []
  {
    if Blocked(clock, busy, roster, date, s, e) {
      var b :| b in busy && b.date == date && b.userKey in roster && Collides(clock, b, Finite(s), Finite(e));
      ConflictNotesEmpty(clock, busy, date, b.userKey, Finite(s), Finite(e));
    }
    if exists k :: k in roster && ConflictNotes(clock, busy, date, k, Finite(s), Finite(e)) != [] {
      var k :| k in roster && ConflictNotes(clock, busy, date, k, Finite(s), Finite(e)) != [];
      ConflictNotesEmpty(clock, busy, date, k, Finite(s), Finite(e));
    }
  }

  /** A window the search may return shows no conflict for any roster party. */
  lemma CandidateHasNoConflicts(clock: Clock, busy: seq<BusyRecord>, roster: seq<UserKey>, date: string,
                                fromM: int, toM: int, d: int, step: int, t: int)
    requires Feasible(clock, busy, roster, date, fromM, toM, d, step, t)
    ensures forall k :: k in roster ==> ConflictNotes(clock, busy, date, k, Finite(t), Finite(t + d)) == []
  {
    BlockedIffConflict(clock, busy, roster, date, t, t + d);
  }

  // ----- the checks /go makes before searching -----

  datatype GoError = BadDay | BadTimeFormat | BadRange | BadDuration | BadStep | DurationDoesNotFit

  /**
   * The checks of `/go` in their order (bot.js:433-489): the day, the
   * `HH:MM` format of both bounds, `from < to`, a duration of 1..600, a
   * step (30 when absent) of 1..180, and a duration that fits the range.
   * On success, the query `recommendSlotsByInput` is called with.
   */
  function CheckGoRequest(dayRaw: Option<string>, today: string, tomorrow: string,
                          from: string, to: string, durationMin: int, step: Option<int>)
    : (r: Result<SlotQuery, GoError>)
    ensures r.Success? ==>
              && IsHHMM(r.value.from) && IsHHMM(r.value.to)
              && r.value.from == from && r.value.to == to && r.value.durationMin == durationMin
              && r.value.maxCandidates == 20
              && ParseGoDay(dayRaw, today, tomorrow) == Some(r.value.date)
              && r.value.stepMin == (if step.Some? then step.value else 30)
              && 1 <= r.value.durationMin <= 600 && 1 <= r.value.stepMin <= 180
              && MinuteOf(from) + durationMin <= MinuteOf(to)
    ensures r.Failure? ==>
              || ParseGoDay(dayRaw, today, tomorrow).None?
              || !IsHHMM(from) || !IsHHMM(to)
              || MinuteOf(from) >= MinuteOf(to)
              || durationMin < 1 || durationMin > 600
              || !(1 <= (if step.Some? then step.value else 30) <= 180)
              || MinuteOf(from) + durationMin > MinuteOf(to)
  {
    var date := ParseGoDay(dayRaw, today, tomorrow);
    var stepMin := if step.Some? then step.value else 30;
    if date.None? then Failure(BadDay)
    else if !IsHHMM(from) || !IsHHMM(to) then Failure(BadTimeFormat)
    else if !(MinuteOf(from) < MinuteOf(to)) then Failure(BadRange)
    else if durationMin <= 0 || durationMin > 600 then Failure(BadDuration)
    else if stepMin <= 0 || stepMin > 180 then Failure(BadStep)
    else if MinuteOf(from) + durationMin > MinuteOf(to) then Failure(DurationDoesNotFit)
    else Success(SlotQuery(date.value, from, to, durationMin, stepMin, 20))
  }

  /** A query `/go` accepts meets what the search requires of it, with bot.js's clock. */
  lemma CheckedQueryIsSearchable(dayRaw: Option<string>, today: string, tomorrow: string,
                                 from: string, to: string, durationMin: int, step: Option<int>)
    requires CheckGoRequest(dayRaw, today, tomorrow, from, to, durationMin, step).Success?
    ensures var q := CheckGoRequest(dayRaw, today, tomorrow, from, to, durationMin, step).value;
            && BotClock.read(q.from).Finite? && BotClock.read(q.from).v >= 0 && BotClock.read(q.to).Finite?
            && q.durationMin > 0 && q.stepMin > 0
            && BotClock.read(q.from).v + q.durationMin <= BotClock.read(q.to).v
  {
    var q := CheckGoRequest(dayRaw, today, tomorrow, from, to, durationMin, step).value;
    assert MinuteOf(q.from) == BotClock.read(q.from).v;
    assert MinuteOf(q.to) == BotClock.read(q.to).v;
  }

  /** `t` is the earliest feasible start. */
  ghost predicate Earliest(clock: Clock, busy: seq<BusyRecord>, roster: seq<UserKey>, date: string,
                           fromM: int, toM: int, d: int, step: int, t: int) {
    && Feasible(clock, busy, roster, date, fromM, toM, d, step, t)
    && forall u :: Feasible(clock, busy, roster, date, fromM, toM, d, step, u) ==> t <= u
  }

  /** No start is feasible. */
  ghost predicate NoWindow(clock: Clock, busy: seq<BusyRecord>, roster: seq<UserKey>, date: string,
                           fromM: int, toM: int, d: int, step: int) {
    forall t :: !Feasible(clock, busy, roster, date, fromM, toM, d, step, t)
  }

  /**
   * `/go` proposes `candidates[0]`: with the search's guarantees the first
   * start is the earliest feasible one, and no start at all means that no
   * window is feasible.
   */
  lemma FirstIsEarliest(clock: Clock, busy: seq<BusyRecord>, roster: seq<UserKey>, date: string,
                        fromM: int, toM: int, d: int, step: int, cap: nat, starts: seq<nat>)
    requires fromM >= 0 && cap >= 1 && |starts| <= cap
    requires forall i :: 0 <= i < |starts| ==>
               Feasible(clock, busy, roster, date, fromM, toM, d, step, starts[i])
    requires forall i, j :: 0 <= i < j < |starts| ==> starts[i] < starts[j]
    requires forall t :: Feasible(clock, busy, roster, date, fromM, toM, d, step, t)
                         && (|starts| < cap || t < starts[|starts| - 1])
                         ==> t in starts
    ensures starts == [] ==> NoWindow(clock, busy, roster, date, fromM, toM, d, step)
    ensures starts != [] ==> Earliest(clock, busy, roster, date, fromM, toM, d, step, starts[0])
  {
    if starts == [] {
      forall t ensures !Feasible(clock, busy, roster, date, fromM, toM, d, step, t) {
        assert t !in starts;
      }
    }
  }
}
