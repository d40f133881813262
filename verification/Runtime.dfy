/**
 One container instance: timers, the pending log and the entries into the guest. The guest
 is any finite sequence of the four host calls, ended by a result or a trap; the clock may
 show anything, or fail.
 */
module Runtime {
  import opened Octets
  import opened Timers
  import opened TimerHistory

  datatype State = Loaded | Running | Stopped | Failed

  datatype Status =
    | Ok | InvalidInput | InvalidState | NoMemory | EngineFailure | InstructionLimit | GuestFailure | NoLog | NoTimer
    | EntryExpired

  datatype Limits = Limits(
    maxEvent: nat, maxLog: nat, maxTimers: nat, maxDuration: U32, clockAllowed: bool, logAllowed: bool,
    timerAllowed: bool)

  datatype End = Returned(result: int) | Trapped(instructionLimit: bool)

  datatype Guest = Guest(calls: seq<Call>, end: End)

  /** The allocator all instances of the process share. */
  class Handles {
    var next: U64

    constructor ()
      ensures next == 1
    {
      next := 1;
    }

    /** A handle that was never issued before, or zero when there are none left. */
    method Issue() returns (handle: U64)
      modifies this
      ensures handle == old(next) && next == NextHandle(old(next))
      ensures handle != 0 ==> !Issued(old(next), handle) && Issued(next, handle)
      ensures forall h :: Issued(old(next), h) ==> Issued(next, h)
    {
      if next == 0 {
        return 0;
      }
      handle := next;
      next := if handle == U64_MAX then 0 else handle + 1;
    }
  }

  /**
   How an entry that reached the guest leaves timers and log: an expired one with no timer and
   the log of before, any other with exactly what the guest's calls made of them.
   */
  predicate Entered(
    guest: Guest, status: Status, made: seq<Change>, timers: seq<Timer>, log: seq<Byte>, timers': seq<Timer>,
    log': seq<Byte>)
  {
    && MadeBy(made, guest.calls)
    && (status == EntryExpired ==> NoneActive(timers') && log' == log)
    && (status != EntryExpired ==> Left(guest.calls, made, timers, log, timers', log'))
    && (status == Ok ==> |made| == |guest.calls| && guest.end.Returned?)
    && (status == InstructionLimit ==> |made| == |guest.calls| && guest.end == Trapped(true))
  }

  /** What an entry that reached the guest adds to the history. */
  function Added(status: Status, made: seq<Change>): seq<Change> {
    if status == EntryExpired then made + [Cleared] else made
  }

  lemma AddedAfter(past: seq<Change>, status: Status, made: seq<Change>)
    ensures past + Added(status, made) == past + made + if status == EntryExpired then [Cleared] else []
  {
    if status == EntryExpired {
      assert past + (made + [Cleared]) == past + made + [Cleared];
    }
  }

  /** What the guest left, and what the end of the entry made of it. */
  lemma FinishedIsEntered(
    guest: Guest, status: Status, raised: bool, made: seq<Change>, timers: seq<Timer>, log: seq<Byte>,
    left: seq<Timer>, leftLog: seq<Byte>, timers': seq<Timer>, log': seq<Byte>)
    requires Left(guest.calls, made, timers, log, left, leftLog) && (!raised <==> |made| == |guest.calls|)
    requires status == EntryExpired ==> NoneActive(timers') && log' == log
    requires status != EntryExpired ==> timers' == left && log' == leftLog
    requires status == Ok ==> !raised && guest.end.Returned?
    requires status == InstructionLimit ==> !raised && guest.end == Trapped(true)
    ensures Entered(guest, status, made, timers, log, timers', log')
  {
  }

  /** After a quiet guest no timer is active exactly if the entry expired or none was active before it. */
  lemma QuietGuestsLeaveTimers(
    guest: Guest, status: Status, made: seq<Change>, timers: seq<Timer>, log: seq<Byte>, timers': seq<Timer>,
    log': seq<Byte>)
    requires Entered(guest, status, made, timers, log, timers', log') && Quiet(guest.calls)
    ensures NoneActive(timers') <==> status == EntryExpired || NoneActive(timers)
    ensures status != EntryExpired ==> timers' == timers
  {
    QuietCallsKeepTimers(timers, guest.calls, made);
  }

  class Instance {
    const limits: Limits
    const handles: Handles
    const timers: array<Timer>
    const pendingLog: array<Byte>
    var state: State
    var pendingLogSize: nat
    var entryExpired: bool
    var entryDeadline: U64
    var stopping: bool
    ghost const first: U64
    ghost var history: seq<Change>
    ghost var delivered: seq<Event>

    constructor (limits: Limits, handles: Handles)
      requires limits.maxTimers <= CAPACITY && (limits.maxTimers > 0 ==> limits.maxEvent >= EVENT_BYTES)
      ensures Valid() && state == Loaded && this.limits == limits && this.handles == handles
      ensures fresh(timers) && fresh(pendingLog) && PendingLog() == [] && NoneActive(timers[..])
      ensures history == [] && delivered == []
    {
      this.limits := limits;
      this.handles := handles;
      timers := new Timer[CAPACITY](_ => Timer(0, 0, 0, false));
      pendingLog := new Byte[limits.maxLog](_ => 0);
      state := Loaded;
      pendingLogSize := 0;
      entryExpired, entryDeadline, stopping := false, 0, false;
      first, history, delivered := handles.next, [], [];
      new;
      assert timers[..] == Blank();
      StoryStarts(first, limits.maxTimers);
    }

    /** The table is what the history left of an empty one, and the log fits its buffer. */
    ghost predicate Consistent()
      reads `history, `stopping, `pendingLogSize, timers, handles`next
    {
      && Story(first, limits.maxTimers, history, timers[..], handles.next)
      && pendingLog.Length == limits.maxLog && pendingLogSize <= limits.maxLog
      && (limits.maxTimers > 0 ==> limits.maxEvent >= EVENT_BYTES)
      && (stopping ==> NoneActive(timers[..]))
    }

    /** What every step of an entry keeps; nothing is said yet of the deliveries. */
    ghost predicate Sound()
      reads `history, `stopping, `pendingLogSize, `state, timers, handles`next
    {
      Consistent() && (state == Stopped ==> stopping)
    }

    /** Every event of the history was delivered, but for one whose guest failed. */
    ghost predicate Valid()
      reads this, timers, handles
    {
      && Sound()
      && delivered <= Events(history)
      && (state != Failed ==> delivered == Events(history))
    }

    /** The log still to be taken. */
    function PendingLog(): seq<Byte>
      reads this, pendingLog
      requires pendingLogSize <= pendingLog.Length
    {
      pendingLog[..pendingLogSize]
    }

    method Monotonic() returns (now: Option<U64>) {
      now := *;
    }

    // ---------------------------------------------------------------- host calls

    /** Whether a host call may proceed: the clock runs and the entry has not expired. */
    method Owner() returns (ok: bool)
      modifies `entryExpired
      ensures old(entryExpired) ==> entryExpired
      ensures entryExpired && !old(entryExpired) ==> !ok
    {
      var now := Monotonic();
      if now.None? {
        return false;
      }
      if now.value >= entryDeadline {
        entryExpired := true;
        return false;
      }
      return true;
    }

    /** Adds a call that left the timers alone to the history. */
    ghost method Note(call: Call, answer: Answer)
      requires Sound() && (answer == Nothing || (answer == Stored && call.Log? && call.source.Readable?))
      modifies `history
      ensures Sound() && history == old(history) + [Called(call, answer)]
      ensures Events(history) == Events(old(history))
    {
      StoryGrows(first, limits.maxTimers, history, timers[..], handles.next, Called(call, answer), handles.next);
      EventsGrow(history, Called(call, answer), 0);
      history := history + [Called(call, answer)];
    }

    method NativeLog(source: Source, size: U32) returns (raised: bool, result: int, ghost answer: Answer)
      requires Sound() && CallFits(Log(source, size))
      modifies `entryExpired, `pendingLogSize, pendingLog, `history
      ensures Sound() && (old(entryExpired) ==> entryExpired)
      ensures entryExpired && !old(entryExpired) ==> raised
      ensures result == 0 || result == -1 || result == -2
      ensures result == 0 <==> answer == Stored
      ensures result != 0 ==> answer == Nothing
      ensures result == 0 ==> source.Readable? && old(pendingLogSize) == 0 && PendingLog() == source.data && !raised
      ensures result != 0 ==> pendingLogSize == old(pendingLogSize) && pendingLog[..] == old(pendingLog[..])
      ensures !raised ==> (result == -2 <==> limits.logAllowed && 0 < size <= limits.maxLog && old(pendingLogSize) != 0)
      ensures !raised ==>
                (result == 0 <==>
                 limits.logAllowed && 0 < size <= limits.maxLog && old(pendingLogSize) == 0 && source.Readable?)
      ensures history == old(history) + if raised then [] else [Called(Log(source, size), answer)]
      ensures Events(history) == Events(old(history))
    {
      answer := Nothing;
      var ok := Owner();
      if !ok || !limits.logAllowed {
        return true, -1, Nothing;
      }
      if size == 0 || size > limits.maxLog {
        Note(Log(source, size), Nothing);
        return false, -1, Nothing;
      }
      if pendingLogSize != 0 {
        Note(Log(source, size), Nothing);
        return false, -2, Nothing;
      }
      if source.OutOfRange? {
        if !source.raises {
          Note(Log(source, size), Nothing);
        }
        return source.raises, -1, Nothing;
      }
      CopyLog(source.data);
      Note(Log(source, size), Stored);
      return false, 0, Stored;
    }

    method CopyLog(data: seq<Byte>)
      requires |data| <= pendingLog.Length
      modifies `pendingLogSize, pendingLog
      ensures pendingLogSize == |data| && PendingLog() == data
    {
      for i := 0 to |data|
        invariant forall k | 0 <= k < i :: pendingLog[k] == data[k]
        modifies pendingLog
      {
        pendingLog[i] := data[i];
      }
      pendingLogSize := |data|;
    }

    /** The requests a running clock and a free place are enough for. */
    predicate MayStart(delay: U32, period: U32)
      reads this, handles
    {
      && !stopping && (state == Loaded || state == Running) && 0 < delay <= MAX_INTERVAL && period <= MAX_INTERVAL
      && handles.next != 0
    }

    /** The first free place for a timer that may start, or as many as there may be. */
    method PlaceFor(delay: U32, period: U32) returns (slot: nat)
      requires limits.maxTimers <= timers.Length
      ensures slot <= limits.maxTimers
      ensures slot < limits.maxTimers ==> !timers[slot].active && forall i | 0 <= i < slot :: timers[i].active
      ensures slot < limits.maxTimers <==> MayStart(delay, period) && !Full(timers[..], limits.maxTimers)
    {
      if stopping || (state != Loaded && state != Running) || delay == 0 || delay > MAX_INTERVAL
        || period > MAX_INTERVAL || handles.next == 0
      {
        return limits.maxTimers;
      }
      slot := 0;
      while slot < limits.maxTimers && timers[slot].active
        invariant slot <= limits.maxTimers && forall i | 0 <= i < slot :: timers[i].active
      {
        slot := slot + 1;
      }
    }

    /**
     Starts a timer in the first free place, due the delay from now, under a fresh handle;
     or returns zero, for one of the reasons there are, and changes no timer.
     */
    method NativeTimerStart(delay: U32, period: U32)
      returns (raised: bool, handle: U64, ghost now: Option<U64>, ghost answer: Answer)
      requires Sound()
      modifies `entryExpired, timers, handles, `history
      ensures Sound() && (old(entryExpired) ==> entryExpired)
      ensures entryExpired && !old(entryExpired) ==> raised
      ensures Covers(old(handles.next), handles.next)
      ensures raised ==> handle == 0
      ensures handle == 0 ==> answer == Nothing && timers[..] == old(timers[..])
      ensures handle != 0 ==>
                && now.Some? && answer.Started? && answer.handle == handle && answer.now == now.value
                && Startable(old(timers[..]), limits.maxTimers, old(handles.next), StartTimer(delay, period),
                             answer.slot, handle, now.value)
                && timers[..] == old(timers[..])[answer.slot := Timer(handle, now.value + delay, period, true)]
      ensures !raised ==>
                (handle == 0 <==>
                 || !old(MayStart(delay, period)) || Full(old(timers[..]), limits.maxTimers)
                 || (now.Some? && now.value > U64_MAX - delay))
      ensures timers[..] == AfterChange(old(timers[..]), Called(StartTimer(delay, period), answer))
      ensures history == old(history) + if raised then [] else [Called(StartTimer(delay, period), answer)]
      ensures Events(history) == Events(old(history))
    {
      handle, now, answer := 0, None, Nothing;
      ghost var call := StartTimer(delay, period);
      var ok := Owner();
      if !ok || !limits.timerAllowed {
        raised := true;
        return;
      }
      raised := false;
      var slot := PlaceFor(delay, period);
      if slot == limits.maxTimers {
        Note(call, Nothing);
        return;
      }
      var read := Monotonic();
      now := read;
      if read.None? {
        raised := true;
        return;
      }
      if read.value > U64_MAX - delay {
        Note(call, Nothing);
        return;
      }
      handle, answer := AddTimer(slot, delay, period, read.value);
    }

    method AddTimer(slot: nat, delay: U32, period: U32, now: U64) returns (handle: U64, ghost answer: Answer)
      requires Sound() && !stopping && handles.next != 0
      requires 0 < delay <= MAX_INTERVAL && period <= MAX_INTERVAL && now + delay <= U64_MAX
      requires slot < limits.maxTimers && !timers[slot].active && forall i | 0 <= i < slot :: timers[i].active
      modifies timers, handles, `history
      ensures Sound() && Covers(old(handles.next), handles.next)
      ensures answer == Started(slot, handle, now)
      ensures Startable(old(timers[..]), limits.maxTimers, old(handles.next), StartTimer(delay, period),
                        slot, handle, now)
      ensures timers[..] == old(timers[..])[slot := Timer(handle, now + delay, period, true)]
      ensures history == old(history) + [Called(StartTimer(delay, period), answer)]
      ensures Events(history) == Events(old(history))
    {
      ghost var before, next := timers[..], handles.next;
      handle := handles.Issue();
      answer := Started(slot, handle, now);
      ghost var c := Called(StartTimer(delay, period), answer);
      StoryGrows(first, limits.maxTimers, history, before, next, c, handles.next);
      EventsGrow(history, c, 0);
      timers[slot] := Timer(handle, now + delay, period, true);
      history := history + [c];
      assert timers[..] == before[slot := Timer(handle, now + delay, period, true)];
    }

    /** Ends the active timer with that handle, if there is one. */
    method NativeTimerCancel(handle: U64) returns (raised: bool, result: int, ghost answer: Answer)
      requires Sound()
      modifies `entryExpired, timers, `history
      ensures Sound() && (old(entryExpired) ==> entryExpired)
      ensures entryExpired && !old(entryExpired) ==> raised
      ensures raised ==> result != 0
      ensures result != 0 ==> answer == Nothing && timers[..] == old(timers[..])
      ensures result == 0 ==>
                && answer.Cancelled? && answer.slot < limits.maxTimers
                && old(timers[..])[answer.slot].active && old(timers[..])[answer.slot].handle == handle
                && timers[..] == old(timers[..])[answer.slot := old(timers[..])[answer.slot].(active := false)]
      ensures !raised ==>
                (result == 0 <==> !stopping && handle != 0 && HasTimer(old(timers[..]), limits.maxTimers, handle))
      ensures timers[..] == AfterChange(old(timers[..]), Called(CancelTimer(handle), answer))
      ensures history == old(history) + if raised then [] else [Called(CancelTimer(handle), answer)]
      ensures Events(history) == Events(old(history))
    {
      answer := Nothing;
      var ok := Owner();
      if !ok || !limits.timerAllowed {
        return true, -1, Nothing;
      }
      if stopping || handle == 0 {
        Note(CancelTimer(handle), Nothing);
        return false, -1, Nothing;
      }
      var index := FindTimer(handle);
      if index == limits.maxTimers {
        Note(CancelTimer(handle), Nothing);
        return false, -1, Nothing;
      }
      EndTimer(index, handle);
      return false, 0, Cancelled(index);
    }

    /** The first active timer with that handle, or as many as there may be. */
    method FindTimer(handle: U64) returns (index: nat)
      requires limits.maxTimers <= timers.Length
      ensures index <= limits.maxTimers
      ensures index < limits.maxTimers ==> timers[index].active && timers[index].handle == handle
      ensures index < limits.maxTimers <==> HasTimer(timers[..], limits.maxTimers, handle)
    {
      index := 0;
      while index < limits.maxTimers && !(timers[index].active && timers[index].handle == handle)
        invariant index <= limits.maxTimers
        invariant forall i | 0 <= i < index :: !(timers[i].active && timers[i].handle == handle)
      {
        index := index + 1;
      }
    }

    method EndTimer(index: nat, handle: U64)
      requires Sound() && index < limits.maxTimers && timers[index].active && timers[index].handle == handle
      modifies timers, `history
      ensures Sound()
      ensures timers[..] == old(timers[..])[index := old(timers[..])[index].(active := false)]
      ensures history == old(history) + [Called(CancelTimer(handle), Cancelled(index))]
      ensures Events(history) == Events(old(history))
    {
      ghost var before, c := timers[..], Called(CancelTimer(handle), Cancelled(index));
      StoryGrows(first, limits.maxTimers, history, before, handles.next, c, handles.next);
      EventsGrow(history, c, 0);
      timers[index] := timers[index].(active := false);
      history := history + [c];
      assert timers[..] == before[index := before[index].(active := false)];
    }

    method NativeClock() returns (raised: bool)
      requires Sound()
      modifies `entryExpired, `history
      ensures Sound() && (old(entryExpired) ==> entryExpired)
      ensures entryExpired && !old(entryExpired) ==> raised
      ensures history == old(history) + if raised then [] else [Called(ReadClock, Nothing)]
      ensures Events(history) == Events(old(history))
    {
      var ok := Owner();
      if !ok || !limits.clockAllowed {
        return true;
      }
      var now := Monotonic();
      raised := now.None?;
      if !raised {
        Note(ReadClock, Nothing);
      }
    }

    method HostCall(call: Call) returns (raised: bool, ghost answer: Answer)
      requires Sound() && CallFits(call)
      modifies `entryExpired, `pendingLogSize, pendingLog, timers, handles, `history
      ensures Sound() && (old(entryExpired) ==> entryExpired)
      ensures entryExpired && !old(entryExpired) ==> raised
      ensures Covers(old(handles.next), handles.next)
      ensures old(PendingLog()) != [] ==> PendingLog() == old(PendingLog())
      ensures raised ==> timers[..] == old(timers[..]) && PendingLog() == old(PendingLog())
      ensures timers[..] == AfterChange(old(timers[..]), Called(call, answer))
      ensures PendingLog() == LogStep(old(PendingLog()), Called(call, answer))
      ensures history == old(history) + if raised then [] else [Called(call, answer)]
      ensures Events(history) == Events(old(history))
    {
      answer := Nothing;
      match call
      case ReadClock =>
        raised := NativeClock();
      case Log(source, size) =>
        var result;
        raised, result, answer := NativeLog(source, size);
      case StartTimer(delay, period) =>
        var handle;
        ghost var now;
        raised, handle, now, answer := NativeTimerStart(delay, period);
      case CancelTimer(handle) =>
        var result;
        raised, result, answer := NativeTimerCancel(handle);
    }

    /** How far a guest has come since the table, log and history it was entered with. */
    ghost predicate Progress(
      calls: seq<Call>, made: seq<Change>, table: seq<Timer>, log: seq<Byte>, past: seq<Change>, next: U64)
      reads this, timers, handles, pendingLog
    {
      && Sound() && Covers(next, handles.next) && (log != [] ==> PendingLog() == log)
      && Left(calls, made, table, log, timers[..], PendingLog())
      && history == past + made && Events(history) == Events(past)
    }

    /** The next host call of a guest. */
    method NextCall(
      calls: seq<Call>, k: nat, ghost made: seq<Change>, ghost table: seq<Timer>, ghost log: seq<Byte>,
      ghost past: seq<Change>, ghost next: U64)
      returns (raised: bool, ghost more: seq<Change>)
      requires Progress(calls, made, table, log, past, next) && !entryExpired
      requires k == |made| < |calls| && CallFits(calls[k])
      modifies `entryExpired, `pendingLogSize, pendingLog, timers, handles, `history
      ensures Progress(calls, more, table, log, past, next) && (entryExpired ==> raised)
      ensures |more| == if raised then k else k + 1
    {
      ghost var answer;
      raised, answer := HostCall(calls[k]);
      more := made;
      if !raised {
        ghost var c := Called(calls[k], answer);
        AfterMore(table, log, past, made, c);
        more := made + [c];
      }
    }

    /** Runs the guest up to its end, or to the host call that raises an exception. */
    method CallGuest(guest: Guest) returns (completed: bool, raised: bool, ghost made: seq<Change>)
      requires Sound() && !entryExpired && forall c | c in guest.calls :: CallFits(c)
      modifies `entryExpired, `pendingLogSize, pendingLog, timers, handles, `history
      ensures Sound() && (entryExpired ==> raised) && (completed <==> !raised && guest.end.Returned?)
      ensures Covers(old(handles.next), handles.next)
      ensures old(PendingLog()) != [] ==> PendingLog() == old(PendingLog())
      ensures Left(guest.calls, made, old(timers[..]), old(PendingLog()), timers[..], PendingLog())
      ensures !raised <==> |made| == |guest.calls|
      ensures history == old(history) + made && Events(history) == Events(old(history))
    {
      made, raised := [], false;
      var k: nat := 0;
      ghost var table, log, past, next := timers[..], PendingLog(), history, handles.next;
      assert past + made == past;
      while k < |guest.calls| && !raised
        invariant Progress(guest.calls, made, table, log, past, next)
        invariant (entryExpired ==> raised) && k <= |guest.calls|
        invariant if raised then |made| + 1 == k else |made| == k
      {
        raised, made := NextCall(guest.calls, k, made, table, log, past, next);
        k := k + 1;
      }
      completed := !raised && guest.end.Returned?;
    }

    // ---------------------------------------------------------------- entries

    method ClearTimers()
      requires Sound()
      modifies timers, `history
      ensures Sound() && NoneActive(timers[..]) && history == old(history) + [Cleared]
      ensures Events(history) == Events(old(history)) && timers[..] == Ended(old(timers[..]))
    {
      HistoryKeeps(first, limits.maxTimers, history);
      StoryGrows(first, limits.maxTimers, history, timers[..], handles.next, Cleared, handles.next);
      EventsGrow(history, Cleared, 0);
      for index := 0 to limits.maxTimers
        invariant forall i | 0 <= i < CAPACITY ::
                    timers[i] == if i < index then old(timers[i]).(active := false) else old(timers[i])
        modifies timers
      {
        timers[index] := timers[index].(active := false);
      }
      assert timers[..] == Ended(old(timers[..]));
      history := history + [Cleared];
    }

    /** Takes an expired entry back: no new log, no timer, no result. */
    method ExpireEntry(priorLogSize: nat) returns (status: Status)
      requires Sound() && priorLogSize <= limits.maxLog
      modifies `state, `pendingLogSize, timers, `history
      ensures Sound() && status == EntryExpired && state == Failed && pendingLogSize == priorLogSize
      ensures NoneActive(timers[..]) && history == old(history) + [Cleared]
      ensures Events(history) == Events(old(history))
    {
      state := Failed;
      pendingLogSize := priorLogSize;
      ClearTimers();
      status := EntryExpired;
    }

    /**
     One entry into the guest. Only an entry that ends in time and without a trap delivers a
     result; one that expires leaves the log as it was and no timer behind; any other failure
     leaves timers and log exactly as the guest's calls left them.
     */
    method Invoke(guest: Guest) returns (status: Status, result: int, ghost made: seq<Change>)
      requires Sound() && forall c | c in guest.calls :: CallFits(c)
      modifies `state, `pendingLogSize, `entryExpired, `entryDeadline, `history, pendingLog, timers, handles
      ensures Sound() && Covers(old(handles.next), handles.next)
      ensures status == Ok || status == EntryExpired || status == EngineFailure || status == InstructionLimit
      ensures status == Ok ==> state == old(state) && guest.end == Returned(result)
      ensures status != Ok ==> state == Failed
      ensures Entered(guest, status, made, old(timers[..]), old(PendingLog()), timers[..], PendingLog())
      ensures old(PendingLog()) != [] ==> PendingLog() == old(PendingLog())
      ensures history == old(history) + Added(status, made) && Events(history) == Events(old(history))
      ensures guest.calls == [] && guest.end.Trapped? ==> status != EntryExpired
    {
      result, made := 0, [];
      assert old(history) + made == old(history);
      var began := Monotonic();
      if began.None? || began.value > U64_MAX - limits.maxDuration {
        state := Failed;
        return EngineFailure, 0, [];
      }
      status, result, made := RunEntry(guest, began.value + limits.maxDuration);
    }

    /** An entry that has begun, up to its deadline. */
    method RunEntry(guest: Guest, deadline: U64) returns (status: Status, result: int, ghost made: seq<Change>)
      requires Sound() && forall c | c in guest.calls :: CallFits(c)
      modifies `state, `pendingLogSize, `entryExpired, `entryDeadline, `history, pendingLog, timers, handles
      ensures Sound() && Covers(old(handles.next), handles.next)
      ensures status == Ok || status == EntryExpired || status == EngineFailure || status == InstructionLimit
      ensures status == Ok ==> state == old(state) && guest.end == Returned(result)
      ensures status != Ok ==> state == Failed
      ensures Entered(guest, status, made, old(timers[..]), old(PendingLog()), timers[..], PendingLog())
      ensures old(PendingLog()) != [] ==> PendingLog() == old(PendingLog())
      ensures history == old(history) + Added(status, made) && Events(history) == Events(old(history))
      ensures guest.calls == [] && guest.end.Trapped? ==> status != EntryExpired
    {
      var priorLogSize := pendingLogSize;
      entryDeadline := deadline;
      entryExpired := false;
      var completed, raised;
      ghost var table, log, past := timers[..], PendingLog(), history;
      completed, raised, made := CallGuest(guest);
      ghost var left, leftLog := timers[..], PendingLog();
      status, result := FinishEntry(guest, completed, raised, priorLogSize);
      if status == EntryExpired {
        assert log == [] || log == leftLog;
        assert PendingLog() == log;
      }
      AddedAfter(past, status, made);
      FinishedIsEntered(guest, status, raised, made, table, log, left, leftLog, timers[..], PendingLog());
    }

    /** After the guest: expired, failed, or in time with a result. */
    method FinishEntry(guest: Guest, completed: bool, raised: bool, priorLogSize: nat)
      returns (status: Status, result: int)
      requires Sound() && priorLogSize <= limits.maxLog && (entryExpired ==> raised)
      requires completed <==> !raised && guest.end.Returned?
      modifies `state, `pendingLogSize, timers, `history
      ensures Sound() && Events(history) == Events(old(history))
      ensures status == Ok || status == EntryExpired || status == EngineFailure || status == InstructionLimit
      ensures status == Ok ==> completed && state == old(state) && guest.end == Returned(result)
      ensures status != Ok ==> state == Failed
      ensures status == InstructionLimit ==> !raised && guest.end == Trapped(true)
      ensures status == EntryExpired ==> NoneActive(timers[..]) && pendingLogSize == priorLogSize
      ensures status != EntryExpired ==> timers[..] == old(timers[..]) && pendingLogSize == old(pendingLogSize)
      ensures history == old(history) + if status == EntryExpired then [Cleared] else []
      ensures !completed && !entryExpired ==> status != EntryExpired
    {
      result := 0;
      if entryExpired {
        status := ExpireEntry(priorLogSize);
        return;
      }
      if !completed {
        state := Failed;
        status := if !raised && guest.end == Trapped(true) then InstructionLimit else EngineFailure;
        return;
      }
      var ended := Monotonic();
      if ended.None? {
        state := Failed;
        status := EngineFailure;
        return;
      }
      if ended.value >= entryDeadline {
        status := ExpireEntry(priorLogSize);
        return;
      }
      status, result := Ok, guest.end.result;
    }

    /** The first entry; whatever fails, no timer survives it. */
    method Init(guest: Guest) returns (status: Status, ghost made: seq<Change>)
      requires Valid() && forall c | c in guest.calls :: CallFits(c)
      modifies this, pendingLog, timers, handles
      ensures Valid() && stopping == old(stopping) && delivered == old(delivered)
      ensures status == InvalidState <==> old(state) != Loaded
      ensures status == InvalidState ==>
                timers[..] == old(timers[..]) && state == old(state) && PendingLog() == old(PendingLog())
                && history == old(history)
      ensures status != InvalidState ==> (status == Ok <==> state == Running) && (status != Ok ==> state == Failed)
      ensures status == Ok ==>
                guest.end == Returned(0)
                && Entered(guest, Ok, made, old(timers[..]), old(PendingLog()), timers[..], PendingLog())
      ensures status != InvalidState ==>
                history == old(history) + Added(status, made) + if status == Ok then [] else [Cleared]
      ensures status != InvalidState && status != Ok ==> NoneActive(timers[..])
      ensures status == EntryExpired ==> PendingLog() == old(PendingLog())
      ensures status != InvalidState && status != EntryExpired ==>
                MadeBy(made, guest.calls) && PendingLog() == LogAfter(old(PendingLog()), made)
    {
      made := [];
      if state != Loaded {
        return InvalidState, [];
      }
      status, made := FirstEntry(guest);
    }

    method FirstEntry(guest: Guest) returns (status: Status, ghost made: seq<Change>)
      requires Valid() && state == Loaded && forall c | c in guest.calls :: CallFits(c)
      modifies this, pendingLog, timers, handles
      ensures Valid() && stopping == old(stopping) && delivered == old(delivered) && status != InvalidState
      ensures state == if status == Ok then Running else Failed
      ensures history == old(history) + Added(status, made) + if status == Ok then [] else [Cleared]
      ensures status == Ok ==>
                guest.end == Returned(0)
                && Entered(guest, Ok, made, old(timers[..]), old(PendingLog()), timers[..], PendingLog())
      ensures status != Ok ==> NoneActive(timers[..])
      ensures status == EntryExpired ==> PendingLog() == old(PendingLog())
      ensures status != EntryExpired ==>
                MadeBy(made, guest.calls) && PendingLog() == LogAfter(old(PendingLog()), made)
    {
      var result;
      status, result, made := Invoke(guest);
      if status == Ok && result != 0 {
        state := Failed;
        status := GuestFailure;
      }
      if status != Ok {
        ClearTimers();
        return;
      }
      state := Running;
    }

    /** Puts an event into guest memory, if there is room, and enters the guest. */
    method CallEvent(event: seq<Byte>, roomy: bool, guest: Guest)
      returns (status: Status, result: Option<int>, ghost made: seq<Change>)
      requires Sound() && forall c | c in guest.calls :: CallFits(c)
      modifies `state, `pendingLogSize, `entryExpired, `entryDeadline, `history, pendingLog, timers, handles
      ensures Sound() && Covers(old(handles.next), handles.next) && Events(history) == Events(old(history))
      ensures status == Ok || status == InvalidInput || status == NoMemory || status == EntryExpired
           || status == EngineFailure || status == InstructionLimit
      ensures status == InvalidInput <==> |event| > limits.maxEvent
      ensures status == NoMemory <==> 0 < |event| <= limits.maxEvent && !roomy
      ensures status == InvalidInput || status == NoMemory ==>
                timers[..] == old(timers[..]) && state == old(state) && PendingLog() == old(PendingLog())
                && handles.next == old(handles.next) && history == old(history)
      ensures status == Ok ==> state == old(state) && result.Some? && guest.end == Returned(result.value)
      ensures status != Ok ==> result.None?
      ensures status != InvalidInput && status != NoMemory ==>
                && (status != Ok ==> state == Failed)
                && Entered(guest, status, made, old(timers[..]), old(PendingLog()), timers[..], PendingLog())
                && history == old(history) + Added(status, made)
      ensures old(PendingLog()) != [] ==> PendingLog() == old(PendingLog())
      ensures guest.calls == [] && guest.end.Trapped? ==> status != EntryExpired
    {
      result, made := None, [];
      if |event| > limits.maxEvent {
        return InvalidInput, None, [];
      }
      if |event| > 0 && !roomy {
        return NoMemory, None, [];
      }
      var value;
      status, value, made := Invoke(guest);
      if status == Ok {
        result := Some(value);
      }
    }

    /**
     A business event; the form of timer events is reserved. An entry that fails leaves the
     timers its calls left, unless it expired: with a quiet guest, no timer is active after
     a failure exactly if the entry expired or none was active before.
     */
    method OnEvent(event: seq<Byte>, roomy: bool, guest: Guest)
      returns (status: Status, result: Option<int>, ghost made: seq<Change>)
      requires Valid() && forall c | c in guest.calls :: CallFits(c)
      modifies this, pendingLog, timers, handles
      ensures Valid() && stopping == old(stopping) && delivered == old(delivered)
      ensures status == InvalidState <==> old(state) != Running
      ensures status == InvalidInput <==>
              old(state) == Running
              && (|event| > limits.maxEvent || (|event| == EVENT_BYTES && event[..4] == EVENT_PREFIX))
      ensures status == NoMemory <==>
              old(state) == Running && status != InvalidInput && |event| > 0 && !roomy
      ensures status == InvalidState || status == InvalidInput || status == NoMemory ==>
                timers[..] == old(timers[..]) && state == old(state) && PendingLog() == old(PendingLog())
                && history == old(history)
      ensures status == Ok ==> state == Running && result.Some? && guest.end == Returned(result.value)
      ensures status != Ok ==> result.None?
      ensures status != InvalidState && status != InvalidInput && status != NoMemory ==>
                && (status != Ok ==> state == Failed)
                && Entered(guest, status, made, old(timers[..]), old(PendingLog()), timers[..], PendingLog())
                && history == old(history) + Added(status, made)
      ensures old(state) == Running && state == Failed && Quiet(guest.calls) ==>
                (NoneActive(timers[..]) <==> status == EntryExpired || NoneActive(old(timers[..])))
      ensures guest.calls == [] && guest.end.Trapped? ==> status != EntryExpired
    {
      result, made := None, [];
      if state != Running {
        return InvalidState, None, [];
      }
      if |event| == EVENT_BYTES && event[..4] == EVENT_PREFIX {
        return InvalidInput, None, [];
      }
      status, result, made := CallEvent(event, roomy, guest);
      if status != InvalidInput && status != NoMemory && Quiet(guest.calls) {
        QuietGuestsLeaveTimers(guest, status, made, old(timers[..]), old(PendingLog()), timers[..], PendingLog());
      }
    }

    /** The last entry; timers end before it, and none can start in it. */
    method Stop(guest: Guest) returns (status: Status, ghost made: seq<Change>)
      requires Valid() && forall c | c in guest.calls :: CallFits(c)
      modifies this, pendingLog, timers, handles
      ensures Valid() && delivered == old(delivered)
      ensures old(state) == Stopped ==> status == Ok
      ensures status == InvalidState <==> old(state) != Stopped && old(state) != Running
      ensures old(state) != Running ==>
                timers[..] == old(timers[..]) && state == old(state) && PendingLog() == old(PendingLog())
                && history == old(history) && stopping == old(stopping)
      ensures old(state) == Running ==>
                && stopping && NoneActive(timers[..]) && MadeBy(made, guest.calls)
                && history == old(history) + [Cleared] + Added(status, made)
                && (status == Ok <==> state == Stopped) && (status != Ok ==> state == Failed)
                && PendingLog() ==
                   if status == EntryExpired then old(PendingLog()) else LogAfter(old(PendingLog()), made)
      ensures old(state) == Running && status == Ok ==> guest.end == Returned(0) && |made| == |guest.calls|
      ensures state == Stopped ==> NoneActive(timers[..])
    {
      made := [];
      if state == Stopped {
        return Ok, [];
      }
      if state != Running {
        return InvalidState, [];
      }
      ClearTimers();
      stopping := true;
      var result;
      status, result, made := Invoke(guest);
      if status != Ok {
        return;
      }
      if result != 0 {
        state := Failed;
        status := GuestFailure;
        return;
      }
      state := Stopped;
    }

    method TakeLog(output: array<Byte>) returns (status: Status, size: nat)
      requires Valid() && output != pendingLog
      modifies `pendingLogSize, output
      ensures Valid()
      ensures status == Ok || status == NoLog || status == InvalidInput
      ensures status == NoLog <==> old(pendingLogSize) == 0
      ensures status == InvalidInput <==> old(pendingLogSize) > output.Length
      ensures status != Ok ==> PendingLog() == old(PendingLog()) && output[..] == old(output[..])
      ensures status == Ok ==> size <= output.Length && output[..size] == old(PendingLog()) && PendingLog() == []
    {
      if pendingLogSize == 0 {
        return NoLog, 0;
      }
      if output.Length < pendingLogSize {
        return InvalidInput, 0;
      }
      size := pendingLogSize;
      for i := 0 to size
        invariant forall k | 0 <= k < i :: output[k] == pendingLog[k]
        modifies output
      {
        output[i] := pendingLog[i];
      }
      pendingLogSize := 0;
      status := Ok;
    }

    // ---------------------------------------------------------------- polling

    /** The earliest deadline among the active timers, but for one at the very end of time. */
    method NextTimerDeadline() returns (status: Status, deadline: U64)
      requires Valid()
      ensures state != Running <==> status == InvalidState
      ensures state == Running ==> status == Ok || status == NoTimer
      ensures status == NoTimer <==>
              && state == Running
              && forall i | 0 <= i < limits.maxTimers && timers[i].active :: timers[i].deadline == U64_MAX
      ensures status == Ok ==>
                && (exists i | 0 <= i < limits.maxTimers :: timers[i].active && timers[i].deadline == deadline)
                && (forall i | 0 <= i < limits.maxTimers && timers[i].active :: deadline <= timers[i].deadline)
                && deadline < U64_MAX
    {
      deadline := U64_MAX;
      if state != Running {
        return InvalidState, 0;
      }
      for index := 0 to limits.maxTimers
        invariant forall i | 0 <= i < index && timers[i].active :: deadline <= timers[i].deadline
        invariant deadline < U64_MAX ==>
                    exists i | 0 <= i < index :: timers[i].active && timers[i].deadline == deadline
      {
        if timers[index].active && timers[index].deadline < deadline {
          deadline := timers[index].deadline;
        }
      }
      status := if deadline != U64_MAX then Ok else NoTimer;
    }

    /**
     The first of the earliest due timers. There is none exactly if every active timer whose
     deadline has come has the last deadline there is.
     */
    method SelectTimer(now: U64) returns (selected: nat)
      requires Sound()
      ensures selected <= limits.maxTimers && IsSelected(timers[..], limits.maxTimers, now, selected)
      ensures selected == limits.maxTimers <==>
              forall i | 0 <= i < limits.maxTimers && timers[i].active && timers[i].deadline <= now ::
                timers[i].deadline == U64_MAX
    {
      selected := limits.maxTimers;
      var earliest: U64 := U64_MAX;
      for index := 0 to limits.maxTimers
        invariant selected == limits.maxTimers ==>
                    earliest == U64_MAX && forall i | 0 <= i < index :: !Due(timers[i], now)
        invariant selected != limits.maxTimers ==>
                    && selected < index && Due(timers[selected], now) && earliest == timers[selected].deadline
                    && (forall i | 0 <= i < index && Due(timers[i], now) :: earliest <= timers[i].deadline)
                    && (forall i | 0 <= i < selected && Due(timers[i], now) :: earliest < timers[i].deadline)
      {
        if timers[index].active && timers[index].deadline <= now && timers[index].deadline < earliest {
          selected := index;
          earliest := timers[index].deadline;
        }
      }
    }

    /** Moves the chosen timer on. */
    method AdvanceTimer(selected: nat, now: U64) returns (skipped: U32, ghost c: Change)
      requires Sound() && selected < limits.maxTimers && IsSelected(timers[..], limits.maxTimers, now, selected)
      modifies timers, `history
      ensures Sound()
      ensures timers[..] == old(timers[..])[selected := Advanced(old(timers[..])[selected], now)]
      ensures skipped == Skipped(old(timers[..])[selected], now)
      ensures c.Moved? && c.event == Event(old(timers[..])[selected].handle, skipped)
      ensures history == old(history) + [c] && Events(history) == Events(old(history)) + [c.event]
    {
      ghost var before := timers[..];
      var timer := timers[selected];
      var next;
      next, skipped := Advance(timer, now);
      c := Moved(selected, now, MissedBy(timer, now), Event(timer.handle, skipped));
      StoryGrows(first, limits.maxTimers, history, before, handles.next, c, handles.next);
      EventsGrow(history, c, 0);
      timers[selected] := next;
      history := history + [c];
      assert timers[..] == before[selected := next];
    }

    method WriteEvent(handle: U64, skipped: U32) returns (event: seq<Byte>)
      ensures event == EventBytes(Event(handle, skipped))
    {
      var bytes := new Byte[EVENT_BYTES](_ => 0);
      bytes[0], bytes[1], bytes[2], bytes[3] := 0x45, 0x43, 0x54, 1;
      PutLe(bytes, 4, handle, 8);
      ghost var middle := bytes[4..12];
      PutLe(bytes, 12, skipped, 4);
      assert bytes[4..12] == middle;
      event := bytes[..];
      ThreeParts(event, EVENT_PREFIX, middle, LeBytes(skipped, 4));
    }

    /**
     Delivers the earliest due timer to the guest. Without a reading of the clock, a due timer
     or memory for the event nothing changes. Otherwise the timer moves on before the guest is
     entered, and the entry leaves timers and log as every entry does.
     */
    method PollTimer(roomy: bool, guest: Guest)
      returns (status: Status, event: Option<Event>, result: Option<int>, ghost poll: Poll)
      requires Valid() && forall c | c in guest.calls :: CallFits(c)
      modifies this, pendingLog, timers, handles
      ensures Valid() && stopping == old(stopping)
      ensures (status == Ok <==> event.Some?) && (status == Ok <==> result.Some?)
      ensures status == InvalidState <==> old(state) != Running
      ensures poll.NotEntered? ==>
                timers[..] == old(timers[..]) && state == old(state) && PendingLog() == old(PendingLog())
                && history == old(history) && delivered == old(delivered)
      ensures poll.NotEntered? <==> status == InvalidState || status == NoTimer || status == NoMemory || poll.now.None?
      ensures old(state) == Running && poll.now.None? ==> status == EngineFailure
      ensures old(state) == Running && poll.now.Some? ==>
                (status == NoTimer <==>
                 forall i | 0 <= i < limits.maxTimers && old(timers[..])[i].active
                            && old(timers[..])[i].deadline <= poll.now.value ::
                   old(timers[..])[i].deadline == U64_MAX)
      ensures status == NoMemory ==> !roomy
      ensures poll.Polled? ==>
                && poll.now.Some? && poll.slot < limits.maxTimers && roomy
                && IsSelected(old(timers[..]), limits.maxTimers, poll.now.value, poll.slot)
                && Served(guest, status, poll, old(timers[..]), old(PendingLog()), timers[..], PendingLog())
                && history == old(history) + [poll.change] + Added(status, poll.made)
                && delivered == old(delivered) + (if status == Ok then [poll.change.event] else [])
                && if status != Ok then state == Failed
                   else
                     && state == Running && event == Some(poll.change.event)
                     && guest.end == Returned(result.value)
    {
      event, result, poll := None, None, NotEntered(None);
      if state != Running {
        status := InvalidState;
        return;
      }
      var read := Monotonic();
      poll := NotEntered(read);
      if read.None? {
        status := EngineFailure;
        return;
      }
      var selected := SelectTimer(read.value);
      if selected == limits.maxTimers {
        status := NoTimer;
        return;
      }
      status, event, result, poll := Deliver(selected, read.value, roomy, guest);
    }

    /** Undoes a move: table and history are as they were. */
    method TakeBack(selected: nat, previous: Timer, ghost before: seq<Timer>, ghost past: seq<Change>)
      requires Sound() && !stopping && Story(first, limits.maxTimers, past, before, handles.next)
      requires selected < |before| == timers.Length && before[selected] == previous
      requires timers[..] == before[selected := timers[selected]]
      modifies timers, `history
      ensures Sound() && timers[..] == before && history == past
    {
      timers[selected] := previous;
      history := past;
      assert timers[..] == before;
    }

    /** Moves the chosen timer on, tells the guest, and takes the move back if there is no memory for the event. */
    method Deliver(selected: nat, now: U64, roomy: bool, guest: Guest)
      returns (status: Status, event: Option<Event>, result: Option<int>, ghost poll: Poll)
      requires Valid() && state == Running && forall c | c in guest.calls :: CallFits(c)
      requires selected < limits.maxTimers && IsSelected(timers[..], limits.maxTimers, now, selected)
      modifies this, pendingLog, timers, handles
      ensures Valid() && stopping == old(stopping) && poll.now == Some(now)
      ensures (status == Ok <==> event.Some?) && (status == Ok <==> result.Some?)
      ensures status != InvalidState && status != NoTimer && (status == NoMemory <==> !roomy)
      ensures poll.NotEntered? <==> status == NoMemory
      ensures status == NoMemory ==>
                timers[..] == old(timers[..]) && state == old(state) && PendingLog() == old(PendingLog())
                && history == old(history) && delivered == old(delivered)
      ensures poll.Polled? ==>
                && poll.slot == selected
                && Served(guest, status, poll, old(timers[..]), old(PendingLog()), timers[..], PendingLog())
                && history == old(history) + [poll.change] + Added(status, poll.made)
                && delivered == old(delivered) + (if status == Ok then [poll.change.event] else [])
                && if status != Ok then state == Failed
                   else
                     && state == Running && event == Some(poll.change.event)
                     && guest.end == Returned(result.value)
    {
      event, poll := None, NotEntered(Some(now));
      ghost var before, past, made, c := timers[..], history, [], Cleared;
      var previous := timers[selected];
      var skipped;
      skipped, c := AdvanceTimer(selected, now);
      ghost var moved := timers[..];
      var bytes := WriteEvent(previous.handle, skipped);
      status, result, made := CallEvent(bytes, roomy, guest);
      if status == NoMemory {
        TakeBack(selected, previous, before, past);
        return;
      }
      poll := Polled(Some(now), selected, c, made);
      MovedIsServed(guest, status, now, selected, c, made, before, old(PendingLog()), timers[..], PendingLog());
      if status == Ok {
        event := Some(Event(previous.handle, skipped));
        delivered := delivered + [c.event];
      }
    }
  }

  /**
   The chosen timer moved on and its event was told; the entry then left timers and log as
   every entry does. After a quiet guest that failed no timer is active exactly if the entry
   expired or none was active on entry.
   */
  predicate Served(
    guest: Guest, status: Status, poll: Poll, timers: seq<Timer>, log: seq<Byte>, timers': seq<Timer>, log': seq<Byte>)
  {
    && poll.Polled? && poll.now.Some? && poll.slot < |timers| && timers[poll.slot].deadline <= poll.now.value
    && var t, now := timers[poll.slot], poll.now.value;
       var moved := timers[poll.slot := Advanced(t, now)];
       && poll.change.Moved? && poll.change.event == Event(t.handle, Skipped(t, now))
       && Entered(guest, status, poll.made, moved, log, timers', log')
       && (status != Ok && Quiet(guest.calls) ==>
             (NoneActive(timers') <==> status == EntryExpired || NoneActive(moved)))
  }

  lemma MovedIsServed(
    guest: Guest, status: Status, now: U64, slot: nat, c: Change, made: seq<Change>, timers: seq<Timer>,
    log: seq<Byte>, timers': seq<Timer>, log': seq<Byte>)
    requires slot < |timers| && timers[slot].deadline <= now
    requires c.Moved? && c.event == Event(timers[slot].handle, Skipped(timers[slot], now))
    requires Entered(guest, status, made, timers[slot := Advanced(timers[slot], now)], log, timers', log')
    ensures Served(guest, status, Polled(Some(now), slot, c, made), timers, log, timers', log')
  {
    if Quiet(guest.calls) {
      QuietGuestsLeaveTimers(guest, status, made, timers[slot := Advanced(timers[slot], now)], log, timers', log');
    }
  }

  /** What a poll did: which timer it moved and what its guest then did, if it came that far. */
  datatype Poll =
    | NotEntered(now: Option<U64>)
    | Polled(now: Option<U64>, slot: nat, change: Change, made: seq<Change>)

  /** FAILED does not mean that no timer is active: a trap in an event leaves them as they are. */
  method TrapKeepsTimers(instance: Instance, event: seq<Byte>)
    requires instance.Valid() && instance.state == Running && !NoneActive(instance.timers[..])
    requires |event| <= instance.limits.maxEvent && |event| != EVENT_BYTES
    modifies instance, instance.pendingLog, instance.timers, instance.handles
    ensures instance.state == Failed && instance.timers[..] == old(instance.timers[..])
  {
    ghost var made;
    var status, result;
    status, result, made := instance.OnEvent(event, true, Guest([], Trapped(false)));
  }

  /**
   A timer started so late that its deadline is the last there is stays active for ever: no
   poll, whatever the clock shows, delivers it.
   */
  method LastDeadlineIsNeverServed(instance: Instance, delay: U32, period: U32, guest: Guest)
    returns (status: Status, polled: Status, ghost answer: Answer)
    requires instance.Valid() && instance.state == Running && NoneActive(instance.timers[..])
    requires 0 < delay <= MAX_INTERVAL && period <= MAX_INTERVAL && forall c | c in guest.calls :: CallFits(c)
    modifies instance, instance.pendingLog, instance.timers, instance.handles
    ensures status == Ok && answer.Started? && answer.now == U64_MAX - delay ==>
              && (polled == NoTimer || polled == EngineFailure) && instance.state == Running
              && answer.slot < CAPACITY
              && instance.timers[..] ==
                 old(instance.timers[..])[answer.slot := Timer(answer.handle, U64_MAX, period, true)]
  {
    ghost var made: seq<Change>;
    var result: Option<int>;
    ghost var past := instance.history;
    answer := Nothing;
    status, result, made := instance.OnEvent([], true, Guest([StartTimer(delay, period)], Returned(0)));
    if status != Ok {
      return status, status, Nothing;
    }
    answer := made[0].answer;
    LastChangeWasPossible(instance.first, instance.limits.maxTimers, past, made[0]);
    assert made[..0] == [];
    ghost var poll: Poll;
    var event: Option<Event>;
    polled, event, result, poll := instance.PollTimer(true, guest);
  }

  /** The last change of an instance's history was possible on the table before it. */
  lemma LastChangeWasPossible(first: U64, used: nat, before: seq<Change>, c: Change)
    requires used <= CAPACITY && Happened(first, used, before + [c])
    ensures Possible(TimersAfter(Blank(), before), used, NextAfter(first, before), c)
  {
    assert (before + [c])[..|before|] == before;
  }

  // ------------------------------------------------------------------ runs

  datatype Entry =
    | First(guest: Guest)
    | Business(event: seq<Byte>, roomy: bool, guest: Guest)
    | Timed(roomy: bool, guest: Guest)
    | Last(guest: Guest)
    | Fetch

  predicate EntryFits(e: Entry) {
    e.Fetch? || forall c | c in e.guest.calls :: CallFits(c)
  }

  /** One entry, and the timer event it delivered, if any. */
  method Enter(instance: Instance, e: Entry, output: array<Byte>) returns (event: Option<Event>)
    requires instance.Valid() && EntryFits(e) && output != instance.pendingLog
    modifies instance, instance.pendingLog, instance.timers, instance.handles, output
    ensures instance.Valid()
    ensures instance.delivered == old(instance.delivered) + if event.Some? then [event.value] else []
    ensures old(instance.history) <= instance.history
  {
    event := None;
    match e
    case First(guest) =>
      var status, made := instance.Init(guest);
    case Business(bytes, roomy, guest) =>
      var status, result, made := instance.OnEvent(bytes, roomy, guest);
    case Timed(roomy, guest) =>
      var status: Status, result: Option<int>;
      ghost var poll: Poll;
      status, event, result, poll := instance.PollTimer(roomy, guest);
    case Last(guest) =>
      var status, made := instance.Stop(guest);
    case Fetch =>
      var status, size := instance.TakeLog(output);
  }

  /**
   Any instance, entered any number of times in any order with any guests: each one-shot is
   delivered at most once; every timer still active is on the cadence it was started with,
   by the events the instance was told; and unless the last entry failed, these are exactly
   the events delivered.
   */
  method AnyRun(limits: Limits, handles: Handles, entries: seq<Entry>, output: array<Byte>)
    returns (instance: Instance, log: seq<Event>)
    requires limits.maxTimers <= CAPACITY && (limits.maxTimers > 0 ==> limits.maxEvent >= EVENT_BYTES)
    requires forall e | e in entries :: EntryFits(e)
    modifies handles, output
    ensures fresh(instance) && instance.Valid() && log == instance.delivered
    ensures forall h: U64 | IsOneShot(instance.history, h) :: Count(log, h) <= 1
    ensures forall i | 0 <= i < CAPACITY && instance.timers[i].active :: OnCadence(instance.history, instance.timers[i])
    ensures log <= Events(instance.history) && (instance.state != Failed ==> log == Events(instance.history))
  {
    instance := new Instance(limits, handles);
    log := [];
    for k := 0 to |entries|
      invariant instance.Valid() && log == instance.delivered && instance.handles == handles
      invariant fresh(instance) && fresh(instance.timers) && fresh(instance.pendingLog)
    {
      var event := Enter(instance, entries[k], output);
      if event.Some? {
        log := log + [event.value];
      }
    }
    RunsKeepCadence(instance);
  }

  /** What Valid promises of any instance, however it came about. */
  lemma RunsKeepCadence(i: Instance)
    requires i.Valid()
    ensures forall h: U64 | IsOneShot(i.history, h) :: Count(i.delivered, h) <= 1
    ensures forall slot | 0 <= slot < CAPACITY && i.timers[slot].active :: OnCadence(i.history, i.timers[slot])
    ensures i.state == Stopped ==> NoneActive(i.timers[..])
  {
    forall h: U64 | IsOneShot(i.history, h)
      ensures Count(i.delivered, h) <= 1
    {
      OneShotsFireOnce(i.first, i.limits.maxTimers, i.history, h);
      CountOfFront(i.delivered, Events(i.history), h);
    }
    forall slot | 0 <= slot < CAPACITY && i.timers[slot].active
      ensures OnCadence(i.history, i.timers[slot])
    {
      RunKeepsCadence(i.first, i.limits.maxTimers, i.history, slot);
    }
  }
}
