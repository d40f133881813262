/**
 The history of one instance's timers: every host call its guests made and what it was
 answered, every timer a poll moved on, every time all timers were ended. The table is what
 the history makes of an empty one, and what holds of any run is proved of any history.
 */
module TimerHistory {
  import opened Octets
  import opened Timers

  /** The memory a guest names: bytes, or a range outside its memory, which may also raise an exception. */
  datatype Source = Readable(data: seq<Byte>) | OutOfRange(raises: bool)

  datatype Call =
    | ReadClock
    | Log(source: Source, size: U32)
    | StartTimer(delay: U32, period: U32)
    | CancelTimer(handle: U64)

  /** Bytes named by a log call are as many as the call says. */
  predicate CallFits(call: Call) {
    call.Log? && call.source.Readable? ==> |call.source.data| == call.size
  }

  /** What a host call that raised no exception did. */
  datatype Answer = Nothing | Stored | Started(slot: nat, handle: U64, now: U64) | Cancelled(slot: nat)

  datatype Change =
    | Called(call: Call, answer: Answer)
    | Moved(slot: nat, now: U64, missed: nat, event: Event)
    | Cleared

  predicate NoneActive(timers: seq<Timer>) {
    forall i | 0 <= i < |timers| :: !timers[i].active
  }

  /** No place is left for another timer. */
  predicate Full(timers: seq<Timer>, used: nat)
    requires used <= |timers|
  {
    forall i | 0 <= i < used :: timers[i].active
  }

  /** One of the timers in use is active under that handle. */
  predicate HasTimer(timers: seq<Timer>, used: nat, handle: U64)
    requires used <= |timers|
  {
    exists i | 0 <= i < used :: timers[i].active && timers[i].handle == handle
  }

  function Ended(timers: seq<Timer>): (r: seq<Timer>)
    ensures |r| == |timers| && NoneActive(r)
  {
    seq(|timers|, i requires 0 <= i < |timers| => timers[i].(active := false))
  }

  /** Periods that passed since the deadline, before the one the next deadline ends. */
  function MissedBy(t: Timer, now: U64): nat
    requires t.deadline <= now
  {
    if t.period == 0 then 0 else Missed(t, now)
  }

  function AfterStart(timers: seq<Timer>, delay: U32, period: U32, slot: nat, handle: U64, now: U64): (r: seq<Timer>)
    ensures |r| == |timers|
  {
    if slot < |timers| && now + delay <= U64_MAX then timers[slot := Timer(handle, now + delay, period, true)]
    else timers
  }

  function AfterMove(timers: seq<Timer>, slot: nat, now: U64): (r: seq<Timer>)
    ensures |r| == |timers|
  {
    if slot < |timers| && timers[slot].deadline <= now then timers[slot := Advanced(timers[slot], now)] else timers
  }

  function AfterChange(timers: seq<Timer>, c: Change): (r: seq<Timer>)
    ensures |r| == |timers|
  {
    match c
    case Called(StartTimer(delay, period), Started(slot, handle, now)) =>
      AfterStart(timers, delay, period, slot, handle, now)
    case Called(CancelTimer(_), Cancelled(slot)) =>
      if slot < |timers| then timers[slot := timers[slot].(active := false)] else timers
    case Called(_, _) => timers
    case Moved(slot, now, _, _) => AfterMove(timers, slot, now)
    case Cleared => Ended(timers)
  }

  function TimersAfter(timers: seq<Timer>, changes: seq<Change>): (r: seq<Timer>)
    ensures |r| == |timers|
  {
    if changes == [] then timers
    else AfterChange(TimersAfter(timers, changes[..|changes| - 1]), changes[|changes| - 1])
  }

  /** The least handle not known to be issued. */
  function NextAfter(first: U64, changes: seq<Change>): U64 {
    if changes == [] then first
    else
      match changes[|changes| - 1]
      case Called(_, Started(_, handle, _)) => NextHandle(handle)
      case _ => NextAfter(first, changes[..|changes| - 1])
  }

  function LogStep(log: seq<Byte>, c: Change): seq<Byte> {
    match c case Called(Log(Readable(data), _), Stored) => data case _ => log
  }

  /** The pending log after the guest's calls. */
  function LogAfter(log: seq<Byte>, changes: seq<Change>): seq<Byte> {
    if changes == [] then log
    else LogStep(LogAfter(log, changes[..|changes| - 1]), changes[|changes| - 1])
  }

  /** A timer starts in the first free place, under a handle never seen, a delay from now. */
  predicate Startable(timers: seq<Timer>, used: nat, next: U64, call: Call, slot: nat, handle: U64, now: U64)
    requires used <= |timers|
  {
    && call.StartTimer? && 0 < call.delay <= MAX_INTERVAL && call.period <= MAX_INTERVAL && now + call.delay <= U64_MAX
    && slot < used && !timers[slot].active && (forall i | 0 <= i < slot :: timers[i].active)
    && handle != 0 && !Issued(next, handle)
  }

  predicate Possible(timers: seq<Timer>, used: nat, next: U64, c: Change)
    requires used <= |timers|
  {
    match c
    case Called(call, Started(slot, handle, now)) => Startable(timers, used, next, call, slot, handle, now)
    case Called(call, Cancelled(slot)) =>
      call.CancelTimer? && slot < used && timers[slot].active && timers[slot].handle == call.handle
    case Called(call, Stored) => call.Log? && call.source.Readable?
    case Called(_, Nothing) => true
    case Moved(slot, now, missed, event) =>
      && slot < used && IsSelected(timers, used, now, slot) && missed == MissedBy(timers[slot], now)
      && event == Event(timers[slot].handle, Skipped(timers[slot], now))
    case Cleared => true
  }

  /** The table of a new instance. */
  function Blank(): (r: seq<Timer>)
    ensures |r| == CAPACITY && NoneActive(r)
  {
    seq(CAPACITY, _ => Timer(0, 0, 0, false))
  }

  /** A history an instance can have, from an empty table on. */
  predicate Happened(first: U64, used: nat, changes: seq<Change>)
    requires used <= CAPACITY
    decreases |changes|
  {
    changes == []
    || (var before, c := changes[..|changes| - 1], changes[|changes| - 1];
        Happened(first, used, before) && Possible(TimersAfter(Blank(), before), used, NextAfter(first, before), c))
  }

  predicate Covers(a: U64, b: U64) {
    forall h: U64 | Issued(a, h) :: Issued(b, h)
  }

  /** The table is what the history left, and its handles are among those issued. */
  predicate Story(first: U64, used: nat, changes: seq<Change>, timers: seq<Timer>, next: U64) {
    && used <= CAPACITY && Happened(first, used, changes) && timers == TimersAfter(Blank(), changes)
    && Covers(NextAfter(first, changes), next)
  }

  lemma StoryGrows(first: U64, used: nat, changes: seq<Change>, timers: seq<Timer>, next: U64, c: Change, later: U64)
    requires Story(first, used, changes, timers, next) && Possible(timers, used, next, c)
    requires Covers(next, later) && (c.Called? && c.answer.Started? ==> Covers(NextHandle(c.answer.handle), later))
    ensures Story(first, used, changes + [c], AfterChange(timers, c), later)
  {
    assert (changes + [c])[..|changes|] == changes;
  }

  lemma StoryStarts(next: U64, used: nat)
    requires used <= CAPACITY
    ensures Story(next, used, [], Blank(), next)
  {
  }

  lemma AfterMore(timers: seq<Timer>, log: seq<Byte>, past: seq<Change>, changes: seq<Change>, c: Change)
    ensures past + (changes + [c]) == past + changes + [c]
    ensures TimersAfter(timers, changes + [c]) == AfterChange(TimersAfter(timers, changes), c)
    ensures LogAfter(log, changes + [c]) == LogStep(LogAfter(log, changes), c)
  {
    assert (changes + [c])[..|changes|] == changes;
  }

  // ------------------------------------------------------------------ what a guest's calls do

  /** These changes are the guest's first calls, in order. */
  predicate MadeBy(changes: seq<Change>, calls: seq<Call>) {
    |changes| <= |calls| && forall k | 0 <= k < |changes| :: changes[k].Called? && changes[k].call == calls[k]
  }

  /** Timers and log are exactly what these calls made of them. */
  predicate Left(
    calls: seq<Call>, made: seq<Change>, timers: seq<Timer>, log: seq<Byte>, timers': seq<Timer>, log': seq<Byte>)
  {
    MadeBy(made, calls) && timers' == TimersAfter(timers, made) && log' == LogAfter(log, made)
  }

  /** Calls that neither start nor cancel a timer. */
  predicate Quiet(calls: seq<Call>) {
    forall k | 0 <= k < |calls| :: calls[k].ReadClock? || calls[k].Log?
  }

  lemma {:induction false} QuietCallsKeepTimers(timers: seq<Timer>, calls: seq<Call>, made: seq<Change>)
    requires Quiet(calls) && MadeBy(made, calls)
    ensures TimersAfter(timers, made) == timers
    decreases |made|
  {
    if made != [] {
      QuietCallsKeepTimers(timers, calls, made[..|made| - 1]);
      assert calls[|made| - 1] == made[|made| - 1].call;
    }
  }

  /** No call of a guest touches a timer that survives it; all others are gone or started by it. */
  lemma {:induction false} CallsSpareTheRest(timers: seq<Timer>, calls: seq<Call>, made: seq<Change>, i: nat)
    requires MadeBy(made, calls) && i < |timers|
    ensures var t := TimersAfter(timers, made)[i];
            t == timers[i] || !t.active
            || exists k | 0 <= k < |made| :: made[k].answer.Started? && made[k].answer.handle == t.handle
    decreases |made|
  {
    if made != [] {
      CallsSpareTheRest(timers, calls, made[..|made| - 1], i);
      var last := made[|made| - 1];
      assert last.Called?;
      if last.answer.Started? && last.call.StartTimer? && last.answer.slot == i {
        assert made[|made| - 1].answer.Started?;
      }
    }
  }

  // ------------------------------------------------------------------ events

  /** What polls told their guests, in order. */
  function Events(changes: seq<Change>): seq<Event> {
    if changes == [] then []
    else
      var before, c := Events(changes[..|changes| - 1]), changes[|changes| - 1];
      if c.Moved? then before + [c.event] else before
  }

  /** How often a handle occurs. */
  function Count(events: seq<Event>, handle: U64): nat {
    if events == [] then 0
    else
      var last := events[|events| - 1];
      Count(events[..|events| - 1], handle) + if last.handle == handle then 1 else 0
  }

  /** The periods the events of a timer stand for: one each, and those they report as skipped. */
  function Reported(events: seq<Event>, handle: U64): nat {
    if events == [] then 0
    else
      var last := events[|events| - 1];
      Reported(events[..|events| - 1], handle) + if last.handle == handle then 1 + last.skipped else 0
  }

  /** The periods that really passed. */
  function Periods(changes: seq<Change>, handle: U64): nat {
    if changes == [] then 0
    else
      var c := changes[|changes| - 1];
      Periods(changes[..|changes| - 1], handle) + if c.Moved? && c.event.handle == handle then 1 + c.missed else 0
  }

  /** The timer a handle was given to, as it was started. */
  function Birth(changes: seq<Change>, handle: U64): Option<Timer> {
    if changes == [] then None
    else
      match changes[|changes| - 1]
      case Called(StartTimer(delay, period), Started(_, issued, now)) =>
        if issued == handle && now + delay <= U64_MAX then Some(Timer(handle, now + delay, period, true))
        else Birth(changes[..|changes| - 1], handle)
      case _ => Birth(changes[..|changes| - 1], handle)
  }

  predicate IsOneShot(changes: seq<Change>, handle: U64) {
    Birth(changes, handle).Some? && Birth(changes, handle).value.period == 0
  }

  /** Every skip count of this timer fitted in 32 bits. */
  predicate NoneSaturates(changes: seq<Change>, handle: U64) {
    forall k | 0 <= k < |changes| && changes[k].Moved? && changes[k].event.handle == handle ::
      changes[k].missed <= U32_MAX
  }

  // ------------------------------------------------------------------ what every history keeps

  /** Active timers are in use, and have issued handles different from each other. */
  predicate TableKept(timers: seq<Timer>, used: nat, next: U64) {
    && |timers| == CAPACITY && used <= CAPACITY
    && (forall i | 0 <= i < CAPACITY && timers[i].active :: i < used && Issued(next, timers[i].handle))
    && (forall i, j | 0 <= i < j < CAPACITY && timers[i].active && timers[j].active ::
          timers[i].handle != timers[j].handle)
  }

  /** An active timer is on the cadence it was started with, and a one-shot has had no event. */
  predicate Accounted(changes: seq<Change>, t: Timer) {
    && Birth(changes, t.handle).Some?
    && var b := Birth(changes, t.handle).value;
       && t == b.(deadline := t.deadline)
       && t.deadline == b.deadline + t.period * Periods(changes, t.handle)
       && (t.period == 0 ==> Count(Events(changes), t.handle) == 0)
  }

  predicate AllAccounted(changes: seq<Change>, timers: seq<Timer>) {
    forall i | 0 <= i < |timers| && timers[i].active :: Accounted(changes, timers[i])
  }

  predicate OnceEach(changes: seq<Change>) {
    forall h: U64 | IsOneShot(changes, h) :: Count(Events(changes), h) <= 1
  }

  /** Handles not issued occur nowhere. */
  predicate Unseen(changes: seq<Change>, next: U64) {
    forall h: U64 | h != 0 && !Issued(next, h) ::
      Birth(changes, h).None? && Count(Events(changes), h) == 0 && Periods(changes, h) == 0
  }

  ghost predicate Kept(used: nat, changes: seq<Change>, timers: seq<Timer>, next: U64) {
    TableKept(timers, used, next) && AllAccounted(changes, timers) && OnceEach(changes) && Unseen(changes, next)
  }

  lemma EventsGrow(changes: seq<Change>, c: Change, h: U64)
    ensures Events(changes + [c]) == if c.Moved? then Events(changes) + [c.event] else Events(changes)
    ensures Count(Events(changes + [c]), h) ==
            Count(Events(changes), h) + if c.Moved? && c.event.handle == h then 1 else 0
    ensures Reported(Events(changes + [c]), h) ==
            Reported(Events(changes), h) + if c.Moved? && c.event.handle == h then 1 + c.event.skipped else 0
    ensures Periods(changes + [c], h) ==
            Periods(changes, h) + if c.Moved? && c.event.handle == h then 1 + c.missed else 0
  {
    assert (changes + [c])[..|changes|] == changes;
    if c.Moved? {
      assert (Events(changes) + [c.event])[..|Events(changes)|] == Events(changes);
    }
  }

  lemma BirthStays(changes: seq<Change>, c: Change, h: U64)
    requires c.Called? && c.answer.Started? ==> c.answer.handle != h
    ensures Birth(changes + [c], h) == Birth(changes, h)
  {
    assert (changes + [c])[..|changes|] == changes;
  }

  lemma BirthAt(changes: seq<Change>, c: Change)
    requires c.Called? && c.call.StartTimer? && c.answer.Started? && c.answer.now + c.call.delay <= U64_MAX
    ensures Birth(changes + [c], c.answer.handle) ==
            Some(Timer(c.answer.handle, c.answer.now + c.call.delay, c.call.period, true))
  {
    assert (changes + [c])[..|changes|] == changes;
  }

  /** A change that neither starts nor moves a timer changes no account. */
  lemma QuietChangeKeeps(used: nat, changes: seq<Change>, timers: seq<Timer>, next: U64, c: Change)
    requires Kept(used, changes, timers, next) && Possible(timers, used, next, c)
    requires !c.Moved? && (c.Called? ==> !c.answer.Started?)
    ensures Kept(used, changes + [c], AfterChange(timers, c), next)
  {
    forall h: U64
      ensures Birth(changes + [c], h) == Birth(changes, h)
      ensures Count(Events(changes + [c]), h) == Count(Events(changes), h)
      ensures Periods(changes + [c], h) == Periods(changes, h)
    {
      EventsGrow(changes, c, h);
      BirthStays(changes, c, h);
    }
    var after := AfterChange(timers, c);
    assert forall i | 0 <= i < CAPACITY && after[i].active :: after[i] == timers[i];
  }

  lemma StartKeeps(used: nat, changes: seq<Change>, timers: seq<Timer>, next: U64, c: Change)
    requires Kept(used, changes, timers, next) && Possible(timers, used, next, c)
    requires c.Called? && c.answer.Started?
    ensures Kept(used, changes + [c], AfterChange(timers, c), NextHandle(c.answer.handle))
  {
    var handle, later := c.answer.handle, NextHandle(c.answer.handle);
    forall h: U64
      ensures h != handle ==> Birth(changes + [c], h) == Birth(changes, h)
      ensures Count(Events(changes + [c]), h) == Count(Events(changes), h)
      ensures Periods(changes + [c], h) == Periods(changes, h)
    {
      EventsGrow(changes, c, h);
      if h != handle {
        BirthStays(changes, c, h);
      }
    }
    BirthAt(changes, c);
    var after := AfterChange(timers, c);
    assert forall h: U64 :: Issued(next, h) ==> Issued(later, h) && h != handle;
    assert forall i | 0 <= i < CAPACITY && after[i].active && i != c.answer.slot :: after[i] == timers[i];
    assert Accounted(changes + [c], after[c.answer.slot]);
  }

  /** The arithmetic of one move, added to the account. */
  lemma MoveIsAccounted(changes: seq<Change>, t: Timer, now: U64, c: Change)
    requires t.active && t.deadline <= now && Accounted(changes, t) && Advanced(t, now).active
    requires c.Moved? && c.event.handle == t.handle && c.missed == MissedBy(t, now)
    ensures Accounted(changes + [c], Advanced(t, now))
  {
    EventsGrow(changes, c, t.handle);
    BirthStays(changes, c, t.handle);
    CadenceIsKept(t, now);
    Distribute(t.period, Periods(changes, t.handle), 1 + c.missed);
  }

  lemma MoveKeeps(used: nat, changes: seq<Change>, timers: seq<Timer>, next: U64, c: Change)
    requires Kept(used, changes, timers, next) && Possible(timers, used, next, c) && c.Moved?
    ensures Kept(used, changes + [c], AfterChange(timers, c), next)
  {
    var t, after := timers[c.slot], AfterChange(timers, c);
    forall h: U64
      ensures Birth(changes + [c], h) == Birth(changes, h)
      ensures Count(Events(changes + [c]), h) == Count(Events(changes), h) + if h == t.handle then 1 else 0
      ensures h != t.handle ==> Periods(changes + [c], h) == Periods(changes, h)
    {
      EventsGrow(changes, c, h);
      BirthStays(changes, c, h);
    }
    forall i | 0 <= i < |after| && after[i].active
      ensures Accounted(changes + [c], after[i])
    {
      if i == c.slot {
        MoveIsAccounted(changes, t, c.now, c);
      } else {
        assert Accounted(changes, timers[i]);
      }
    }
    assert Accounted(changes, t);
  }

  lemma {:induction false} HistoryKeeps(first: U64, used: nat, changes: seq<Change>)
    requires used <= CAPACITY && Happened(first, used, changes)
    ensures Kept(used, changes, TimersAfter(Blank(), changes), NextAfter(first, changes))
    decreases |changes|
  {
    if changes != [] {
      var before, c := changes[..|changes| - 1], changes[|changes| - 1];
      var timers, next := TimersAfter(Blank(), before), NextAfter(first, before);
      HistoryKeeps(first, used, before);
      assert changes == before + [c];
      if c.Moved? {
        MoveKeeps(used, before, timers, next, c);
      } else if c.Called? && c.answer.Started? {
        StartKeeps(used, before, timers, next, c);
      } else {
        QuietChangeKeeps(used, before, timers, next, c);
      }
    }
  }

  /** Each one-shot occurs at most once among the events of any history. */
  lemma OneShotsFireOnce(first: U64, used: nat, changes: seq<Change>, handle: U64)
    requires used <= CAPACITY && Happened(first, used, changes) && IsOneShot(changes, handle)
    ensures Count(Events(changes), handle) <= 1
  {
    HistoryKeeps(first, used, changes);
  }

  lemma SaturationGrows(changes: seq<Change>, c: Change, h: U64)
    ensures NoneSaturates(changes + [c], h) <==>
            NoneSaturates(changes, h) && (c.Moved? && c.event.handle == h ==> c.missed <= U32_MAX)
  {
    var more := changes + [c];
    assert forall k | 0 <= k < |changes| :: more[k] == changes[k];
    assert more[|changes|] == c;
  }

  lemma SkipsAreCapped(timers: seq<Timer>, used: nat, next: U64, c: Change)
    requires used <= |timers| && Possible(timers, used, next, c) && c.Moved?
    ensures c.event.skipped == if c.missed <= U32_MAX then c.missed else U32_MAX
  {
  }

  /** The events of a timer report no more than the periods that passed, and as many exactly when none saturates. */
  lemma {:induction false} ReportsFallShort(first: U64, used: nat, changes: seq<Change>, handle: U64)
    requires used <= CAPACITY && Happened(first, used, changes)
    ensures Reported(Events(changes), handle) <= Periods(changes, handle)
    ensures Reported(Events(changes), handle) == Periods(changes, handle) <==> NoneSaturates(changes, handle)
    decreases |changes|
  {
    if changes != [] {
      var before, c := changes[..|changes| - 1], changes[|changes| - 1];
      ReportsFallShort(first, used, before, handle);
      assert changes == before + [c];
      EventsGrow(before, c, handle);
      SaturationGrows(before, c, handle);
      if c.Moved? {
        SkipsAreCapped(TimersAfter(Blank(), before), used, NextAfter(first, before), c);
      }
    }
  }

  lemma SameFactor(p: nat, a: nat, b: nat)
    requires p > 0
    ensures p * a == p * b <==> a == b
  {
    if a < b {
      Distribute(p, a, b - a);
      assert p * (b - a) > 0;
    } else if b < a {
      Distribute(p, b, a - b);
      assert p * (a - b) > 0;
    }
  }

  /**
   The account of a timer: its deadline is the first one plus its period for every period
   that passed, which is what its events reported, unless one of them saturated.
   */
  predicate OnCadence(changes: seq<Change>, t: Timer) {
    && Birth(changes, t.handle).Some?
    && var b := Birth(changes, t.handle).value;
       && t == b.(deadline := t.deadline)
       && t.deadline == b.deadline + t.period * Periods(changes, t.handle)
       && (t.period > 0 ==>
             (t.deadline == b.deadline + t.period * Reported(Events(changes), t.handle)
              <==> NoneSaturates(changes, t.handle)))
  }

  /** Over any history every timer still active is on its cadence. */
  lemma RunKeepsCadence(first: U64, used: nat, changes: seq<Change>, slot: nat)
    requires used <= CAPACITY && Happened(first, used, changes)
    requires slot < CAPACITY && TimersAfter(Blank(), changes)[slot].active
    ensures OnCadence(changes, TimersAfter(Blank(), changes)[slot])
  {
    HistoryKeeps(first, used, changes);
    var t := TimersAfter(Blank(), changes)[slot];
    assert Accounted(changes, t);
    ReportsFallShort(first, used, changes, t.handle);
    if t.period > 0 {
      SameFactor(t.period, Periods(changes, t.handle), Reported(Events(changes), t.handle));
    }
  }

  /** One start at a clock near its end, and its timer is active for ever: no poll selects it. */
  lemma ExampleOfLastDeadline(now: U64)
    ensures var history := [Called(StartTimer(5, 0), Started(0, 1, U64_MAX - 5))];
            && Happened(1, 1, history)
            && TimersAfter(Blank(), history)[0] == Timer(1, U64_MAX, 0, true)
            && IsSelected(TimersAfter(Blank(), history), 1, now, 1)
  {
    StoryStarts(1, 1);
    StoryGrows(1, 1, [], Blank(), 1, Called(StartTimer(5, 0), Started(0, 1, U64_MAX - 5)), 2);
    var history := [Called(StartTimer(5, 0), Started(0, 1, U64_MAX - 5))];
    assert [] + history == history && history[..0] == [];
  }

  lemma {:induction false} CountOfFront(front: seq<Event>, events: seq<Event>, handle: U64)
    requires front <= events
    ensures Count(front, handle) <= Count(events, handle)
    decreases |events|
  {
    if |front| < |events| {
      CountOfFront(front, events[..|events| - 1], handle);
    } else {
      assert front == events;
    }
  }
}
