/**
 Any sequence of the store's operations, on a device that may fail at any callback and
 lose its power in between: what the device holds afterwards is a run of the protocol.
 */
module SlotRun {
  import opened Octets
  import opened SlotState
  import opened SlotRecord
  import opened SlotProtocol
  import opened SlotHistory
  import opened SlotIo
  import opened SlotWrite
  import SlotStore

  /** What may be asked of the store; after a restart nobody holds the lock. */
  datatype Request =
    | Change(call: Call)
    | Write(expected: U32, source: Source, accepts: bool)
    | Boot(firmware: FirmwareSet)
    | Inspect
    | Restart

  /** The run leads to what the device holds. */
  ghost predicate Reaches(g: Geometry, h: Hash, run: History, io: Io)
    reads io`blob, io.flash
  {
    Run(g, h, run) && Now(run) == SlotStore.Device(g, io)
  }

  /** A completed operation continues a run by one step, or not at all. */
  lemma CompletedContinues(
    g: Geometry, h: Hash, run: History, before: Option<Blob>, flash: seq<Byte>, call: Call, clean: bool,
    result: Result, after: Option<Blob>) returns (more: History)
    requires Run(g, h, run) && Now(run) == World(SlotStore.View(g, before), flash)
    requires SlotStore.Completed(before, Decide(g, h, Now(run), call), clean, result, after)
    ensures Run(g, h, more) && Now(more) == World(SlotStore.View(g, after), flash) && Extends(more, run)
    ensures result == Ok ==> more == Then(run, Do(call), Now(more))
  {
    var w' := World(SlotStore.View(g, after), flash);
    SlotStore.CompletedIsStep(g, h, before, flash, call, clean, result, after);
    more := if StepOk(g, h, Now(run), Do(call), w') then Then(run, Do(call), w') else Then(run, Stay, w');
  }

  /** So does writing a package: damage in the reserved slot, and then at most one commit. */
  lemma WriteContinues(
    g: Geometry, h: Hash, run: History, s: State, flash: seq<Byte>, flash': seq<Byte>, made: seq<Access>,
    accepts: bool, clean: bool, result: Result, after: Option<Blob>) returns (more: History)
    requires Run(g, h, run) && Now(run) == World(Holding(s), flash)
    requires StateValid(s, g) && PrepareGate(g, h, World(Holding(s), flash), s.sequence) == Loaded(s)
    requires SlotStore.Written(g, flash, flash', s, made)
    requires SlotStore.Completed(Some(Encode(s)), DecidePrepared(g, h, flash', s, accepts), clean, result, after)
    ensures Run(g, h, more) && Now(more) == World(SlotStore.View(g, after), flash') && Extends(more, run)
  {
    var w, w' := World(Holding(s), flash'), World(SlotStore.View(g, after), flash');
    SlotStore.WriteIsDamage(g, h, s, flash, flash', made);
    var damaged := Then(run, Damage, w);
    SlotStore.WriteIsCommit(g, h, s, flash, flash', accepts, clean, result, after);
    var call := Call.Prepare(s.sequence, accepts);
    more := Then(damaged, if StepOk(g, h, w, Do(call), w') then Do(call) else Stay, w');
    assert Extends(damaged, run);
  }

  lemma GateHolds(g: Geometry, h: Hash, io: Io, expected: U32)
    requires PrepareGate(g, h, SlotStore.Device(g, io), expected).Loaded?
    ensures var s := PrepareGate(g, h, SlotStore.Device(g, io), expected).state;
            && SlotStore.Device(g, io).record == Holding(s) && StateValid(s, g) && io.blob == Some(Encode(s))
            && s.sequence == expected
  {
    SlotStore.ViewIsStored(g, io.blob);
  }

  method WriteFrom(
    io: Io, g: Geometry, h: Hash, expected: U32, source: Source, accepts: bool, ghost run: History)
    returns (result: Result, ghost more: History)
    requires Reaches(g, h, run, io)
    modifies io`blob, io`held, io`accesses, io.flash
    ensures Reaches(g, h, more, io) && Extends(more, run)
  {
    ghost var before, flash, gate := io.blob, io.flash[..], PrepareGate(g, h, SlotStore.Device(g, io), expected);
    if gate.Loaded? {
      GateHolds(g, h, io, expected);
    }
    var stored;
    ghost var made;
    result, stored, made := SlotStore.WriteAndPrepare(io, g, h, expected, source, accepts);
    if made == [] {
      assert io.blob == before;
      more := run;
    } else {
      more := WriteContinues(g, h, run, gate.state, flash, io.flash[..], made, accepts,
                             SlotStore.AllWell(io, g, source, gate.state.operation.packageSize), result, io.blob);
    }
  }

  /** One operation that only changes the record; a prepare is done by writing. */
  method ChangeRecord(io: Io, g: Geometry, h: Hash, call: Call, ghost run: History)
    returns (result: Result, ghost more: History)
    requires Reaches(g, h, run, io) && !call.Prepare?
    modifies io`blob, io`held
    ensures Reaches(g, h, more, io) && Extends(more, run)
    ensures result == Ok ==> more == Then(run, Do(call), Now(more))
  {
    ghost var before, clean := io.blob, io.faultFree && !io.held;
    var stored: Option<State>;
    match call {
      case Initialize(f, bindings) => result := SlotStore.Initialize(io, g, h, f, bindings);
      case Reserve(expected, f, o) => result, stored := SlotStore.Reserve(io, g, h, expected, f, o);
      case BeginTrial(expected, running, boot) =>
        result, stored := SlotStore.BeginTrial(io, g, h, expected, running, boot);
      case MarkHealthy(expected, boot) => result, stored := SlotStore.MarkHealthy(io, g, h, expected, boot);
      case Confirm(expected, running, boot) =>
        result, stored := SlotStore.Confirm(io, g, h, expected, running, boot);
      case Abandon(expected, boot, stopped) =>
        result, stored := SlotStore.Abandon(io, g, h, expected, boot, stopped);
    }
    more := CompletedContinues(g, h, run, before, io.flash[..], call, clean, result, io.blob);
  }

  method Perform(io: Io, g: Geometry, h: Hash, r: Request, ghost run: History) returns (ghost more: History)
    requires Reaches(g, h, run, io) && (r.Change? ==> !r.call.Prepare?)
    modifies io`blob, io`held, io`accesses, io.flash
    ensures Reaches(g, h, more, io) && Extends(more, run)
  {
    more := run;
    match r
    case Change(call) =>
      var result;
      result, more := ChangeRecord(io, g, h, call, run);
    case Write(expected, source, accepts) =>
      var result;
      result, more := WriteFrom(io, g, h, expected, source, accepts, run);
    case Boot(f) =>
      var boot := SlotStore.Reconcile(io, g, h, f);
    case Inspect =>
      var result, state := SlotStore.LoadState(io, g);
    case Restart =>
      io.Unlock();
  }

  /**
   From a blank record, whatever is asked and whatever fails: the device is at the end of a
   run of the protocol. So every confirmed package and every candidate hashes to its recorded
   digest, every package has its origin in a complete installation, and the firmware bound is
   that of the first record.
   */
  method AnyRun(io: Io, g: Geometry, h: Hash, requests: seq<Request>) returns (ghost run: History)
    requires io.blob.None? && forall r | r in requests :: r.Change? ==> !r.call.Prepare?
    modifies io`blob, io`held, io`accesses, io.flash
    ensures Reaches(g, h, run, io) && WorldGood(g, h, SlotStore.Device(g, io))
    ensures HasRecord(run) ==>
              && Traced(g, h, Log(run), Current(g, h, run)) && Current(g, h, run).sequence == |Log(run)|
              && Bound(Current(g, h, run)) == Bootable(Log(run)[0].call.firmware)
  {
    run := Blank(io.flash[..]);
    for i := 0 to |requests|
      invariant Reaches(g, h, run, io)
    {
      run := Perform(io, g, h, requests[i], run);
    }
    RunStaysGood(g, h, run);
    if HasRecord(run) {
      EveryPackageHasOrigin(g, h, run);
      SequenceCountsCommits(g, h, run);
      FirmwareStaysBound(g, h, run);
    }
  }
}
