/**
 A whole installation, by the store's own operations on a device without faults: from any
 sound record, also one whose pending candidate is damaged, six calls confirm a package.
 */
module SlotInstall {
  import opened Octets
  import opened SlotState
  import opened SlotRecord
  import opened SlotProtocol
  import opened SlotProgress
  import opened SlotIo
  import opened SlotWrite
  import opened SlotStore

  /** A device without faults that holds the record of s over intact packages. */
  ghost predicate Settled(g: Geometry, h: Hash, io: Io, s: State)
    reads io`blob, io`held, io.flash
  {
    io.faultFree && !io.held && Holds(g, h, Device(g, io), s)
  }

  /** Without faults a decided commit is carried out. */
  lemma CommitIsStored(
    g: Geometry, h: Hash, before: Option<Blob>, flash: seq<Byte>, d: Decision, t: State, result: Result,
    after: Option<Blob>)
    requires Completed(before, d, true, result, after) && d == Commit(t) && Sound(g, h, flash, t)
    ensures result == Ok && Holds(g, h, World(View(g, after), flash), t)
  {
    StoredViews(g, t);
  }

  method AbandonPending(io: Io, g: Geometry, h: Hash, n: U32, boot: Id, stopped: bool, ghost s: State)
    returns (result: Result)
    requires Settled(g, h, io, s) && n == s.sequence < U32_MAX && Cancellable(s, boot, stopped)
    modifies io`blob, io`held
    ensures result == Ok && Settled(g, h, io, Next(s, ABORTED))
  {
    AbandonWorks(g, h, Device(g, io), s, boot, stopped);
    var stored;
    ghost var before := io.blob;
    ghost var d := DecideAbandon(g, h, Device(g, io), n, boot, stopped);
    result, stored := SlotStore.Abandon(io, g, h, n, boot, stopped);
    CommitIsStored(g, h, before, io.flash[..], d, Next(s, ABORTED), result, io.blob);
  }

  method ReserveSlot(io: Io, g: Geometry, h: Hash, n: U32, f: FirmwareSet, o: Operation, ghost s: State)
    returns (result: Result)
    requires Settled(g, h, io, s) && n == s.sequence < U32_MAX && !Pending(s.phase) && Acceptable(g, s, f, o)
    modifies io`blob, io`held
    ensures result == Ok && Settled(g, h, io, Reserved(g, s, o))
  {
    ReserveWorks(g, h, Device(g, io), s, f, o);
    var stored;
    ghost var before := io.blob;
    ghost var d := DecideReserve(g, h, Device(g, io), n, f, o);
    result, stored := SlotStore.Reserve(io, g, h, n, f, o);
    CommitIsStored(g, h, before, io.flash[..], d, Reserved(g, s, o), result, io.blob);
  }

  lemma GateIsOpen(g: Geometry, h: Hash, w: World, s: State)
    requires Holds(g, h, w, s) && s.phase == WRITING
    ensures PrepareGate(g, h, w, s.sequence) == Loaded(s)
  {
  }

  method WritePackage(io: Io, g: Geometry, h: Hash, n: U32, source: Source, ghost s: State) returns (result: Result)
    requires Settled(g, h, io, s) && n == s.sequence < U32_MAX && s.phase == WRITING
    requires source.faithful && |source.content| == s.operation.packageSize && h(source.content) == s.operation.package
    modifies io`blob, io`held, io`accesses, io.flash
    ensures result == Ok && Settled(g, h, io, Next(s, PREPARED))
    ensures CandidateCheck(g, h, io.flash[..], s.operation) == Ok
  {
    GateIsOpen(g, h, Device(g, io), s);
    WriteWorks(g, h, io.flash[..], s, source.content);
    ghost var before, flash := io.blob, io.flash[..];
    var stored;
    ghost var made;
    result, stored, made := SlotStore.WriteAndPrepare(io, g, h, n, source, true);
    assert source.content[..s.operation.packageSize] == source.content;
    assert io.flash[..] == Programmed(flash, g.slots[s.operation.slot], source.content);
    PrepareWorks(g, h, World(Holding(s), io.flash[..]), s);
    assert made != [];
    CommitIsStored(g, h, before, io.flash[..], DecidePrepared(g, h, io.flash[..], s, true), Next(s, PREPARED), result,
                   io.blob);
  }

  method Try(io: Io, g: Geometry, h: Hash, n: U32, running: Digest, boot: Id, ghost s: State) returns (result: Result)
    requires Settled(g, h, io, s) && n == s.sequence < U32_MAX && s.phase == PREPARED && s.operation.target == running
    requires CandidateCheck(g, h, io.flash[..], s.operation) == Ok && !AllZero(boot)
    modifies io`blob, io`held
    ensures result == Ok && Settled(g, h, io, Tried(s, boot))
  {
    BeginTrialWorks(g, h, Device(g, io), s, boot);
    var stored;
    ghost var before := io.blob;
    ghost var d := DecideBeginTrial(g, h, Device(g, io), n, running, boot);
    result, stored := SlotStore.BeginTrial(io, g, h, n, running, boot);
    CommitIsStored(g, h, before, io.flash[..], d, Tried(s, boot), result, io.blob);
  }

  method Heal(io: Io, g: Geometry, h: Hash, n: U32, boot: Id, ghost s: State) returns (result: Result)
    requires Settled(g, h, io, s) && n == s.sequence < U32_MAX && s.phase == TRIAL_STARTED
    requires CandidateCheck(g, h, io.flash[..], s.operation) == Ok && s.operation.trialBoot == boot
    modifies io`blob, io`held
    ensures result == Ok && Settled(g, h, io, Next(s, HEALTH_VERIFIED))
  {
    MarkHealthyWorks(g, h, Device(g, io), s);
    var stored;
    ghost var before := io.blob;
    ghost var d := DecideMarkHealthy(g, h, Device(g, io), n, boot);
    result, stored := SlotStore.MarkHealthy(io, g, h, n, boot);
    CommitIsStored(g, h, before, io.flash[..], d, Next(s, HEALTH_VERIFIED), result, io.blob);
  }

  method ConfirmHealthy(io: Io, g: Geometry, h: Hash, n: U32, running: Digest, boot: Id, ghost s: State)
    returns (result: Result)
    requires Settled(g, h, io, s) && n == s.sequence < U32_MAX && s.phase == HEALTH_VERIFIED
    requires CandidateCheck(g, h, io.flash[..], s.operation) == Ok
    requires s.operation.trialBoot == boot && s.operation.target == running
    modifies io`blob, io`held
    ensures FirmwareIndex(s, running) >= 0
    ensures result == Ok && Settled(g, h, io, Confirmed(s))
  {
    ConfirmWorks(g, h, Device(g, io), s);
    var stored;
    ghost var before := io.blob;
    ghost var d := DecideConfirm(g, h, Device(g, io), n, running, boot);
    result, stored := SlotStore.Confirm(io, g, h, n, running, boot);
    CommitIsStored(g, h, before, io.flash[..], d, Confirmed(s), result, io.blob);
  }

  /** The three calls after the package is written. */
  method TryAndConfirm(
    io: Io, g: Geometry, h: Hash, n: U32, f: FirmwareSet, o: Operation, boot: Id, ghost s: State)
    returns (result: Result, ghost t: State)
    requires Settled(g, h, io, s) && n == s.sequence <= U32_MAX - 3 && s.phase == PREPARED && !AllZero(boot)
    requires CandidateCheck(g, h, io.flash[..], s.operation) == Ok
    requires s.operation.target == f.running && SameRequest(s.operation, o) && s.operation.id == o.id
    modifies io`blob, io`held
    ensures result == Ok && Settled(g, h, io, t) && InstalledAs(t, f, o) && t.sequence == n + 3
  {
    result := Try(io, g, h, n, f.running, boot, s);
    t := Tried(s, boot);
    result := Heal(io, g, h, n + 1, boot, t);
    t := Next(t, HEALTH_VERIFIED);
    result := ConfirmHealthy(io, g, h, n + 2, f.running, boot, t);
    ConfirmedIsValid(g, t);
    t := Confirmed(t);
  }

  /**
   Abandon if an operation is pending, then reserve, write, try, mark healthy and confirm:
   the running firmware is bound to the package, whose bytes are in Flash.
   */
  method Install(
    io: Io, g: Geometry, h: Hash, n: U32, pending: bool, stopped: bool, f: FirmwareSet, o: Operation, source: Source,
    boot: Id, ghost s: State)
    returns (result: Result, ghost t: State)
    requires Settled(g, h, io, s) && n == s.sequence <= U32_MAX - 6 && (pending <==> Pending(s.phase))
    requires pending ==> Cancellable(s, boot, stopped)
    requires Acceptable(g, s, f, o) && !AllZero(boot)
    requires source.faithful && |source.content| == o.packageSize && h(source.content) == o.package
    modifies io`blob, io`held, io`accesses, io.flash
    ensures result == Ok && Settled(g, h, io, t) && InstalledAs(t, f, o)
    ensures io.blob == Some(Encode(t)) && t.sequence == n + (if pending then 6 else 5)
  {
    var m := n;
    t := s;
    if pending {
      result := AbandonPending(io, g, h, n, boot, stopped, s);
      m, t := n + 1, Next(s, ABORTED);
      SelectionIgnoresPhase(g, s, t, o.packageSize);
    }
    result := ReserveSlot(io, g, h, m, f, o, t);
    t := Reserved(g, t, o);
    result := WritePackage(io, g, h, m + 1, source, t);
    t := Next(t, PREPARED);
    result, t := TryAndConfirm(io, g, h, m + 2, f, o, boot, t);
    ViewIsStored(g, io.blob);
  }
}
