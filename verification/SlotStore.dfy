/**
 The package store's operations, working on the blob and the Flash through callbacks that
 may fail at any point. Each is proved to make the durable change its decision allows,
 or none.
 */
module SlotStore {
  import opened Octets
  import opened SlotState
  import opened SlotRecord
  import opened SlotProtocol
  import opened SlotProgress
  import opened SlotIo
  import opened SlotWrite

  // ------------------------------------------------------------------ the two layers

  function View(g: Geometry, blob: Option<Blob>): Record {
    match blob
    case None => Absent
    case Some(b) => match Decode(b, g) case None => Unreadable case Some(s) => Holding(s)
  }

  /** What the device holds, in the terms of the protocol. */
  function Device(g: Geometry, io: Io): World
    reads io`blob, io.flash
  {
    World(View(g, io.blob), io.flash[..])
  }

  lemma StoredViews(g: Geometry, s: State)
    requires StateValid(s, g)
    ensures View(g, Some(Encode(s))) == Holding(s)
  {
    DecodeInvertsEncode(s, g);
  }

  lemma ViewIsStored(g: Geometry, blob: Option<Blob>)
    requires View(g, blob).Holding?
    ensures StateValid(View(g, blob).state, g) && blob == Some(Encode(View(g, blob).state))
  {
    EncodeInvertsDecode(blob.value, g);
  }

  function Outcome(d: Decision): Result {
    match d case Refuse(r) => r case Commit(_) => Ok
  }

  /**
   The contract of every operation: the record is the old one or the decided one; Ok means
   the decided one is stored, and any result but Ok and Uncertain means the old one is.
   Without faults the result and the record are exactly the decision.
   */
  predicate Completed(before: Option<Blob>, d: Decision, clean: bool, result: Result, after: Option<Blob>) {
    && (after == before || (d.Commit? && after == Some(Encode(d.next))))
    && (result == Ok ==> d.Commit? && after == Some(Encode(d.next)))
    && (result != Ok && result != Uncertain ==> after == before)
    && (result == Outcome(d) || result == Busy || result == IoFailed || result == Uncertain)
    && (clean ==> result == Outcome(d))
  }

  /** A check reports the truth, or that it could not be made. */
  predicate Reports(result: Result, truth: Result, clean: bool) {
    result == truth || (!clean && result == IoFailed)
  }

  lemma CommitIsValid(g: Geometry, h: Hash, w: World, call: Call)
    requires Decide(g, h, w, call).Commit?
    ensures StateValid(Decide(g, h, w, call).next, g)
  {
  }

  /** A completed operation is one step of the protocol, or none. */
  lemma CompletedIsStep(
    g: Geometry, h: Hash, before: Option<Blob>, flash: seq<Byte>, call: Call, clean: bool, result: Result,
    after: Option<Blob>)
    requires Completed(before, Decide(g, h, World(View(g, before), flash), call), clean, result, after)
    ensures var w, w' := World(View(g, before), flash), World(View(g, after), flash);
            StepOk(g, h, w, Stay, w') || StepOk(g, h, w, Do(call), w')
    ensures result == Ok ==>
              StepOk(g, h, World(View(g, before), flash), Do(call), World(View(g, after), flash))
  {
    var w := World(View(g, before), flash);
    if Decide(g, h, w, call).Commit? {
      CommitIsValid(g, h, w, call);
      StoredViews(g, Decide(g, h, w, call).next);
    }
  }

  // ------------------------------------------------------------------ reading

  method LoadLocked(io: Io, g: Geometry) returns (l: Loaded)
    ensures l == Load(View(g, io.blob)) || (!io.faultFree && l == Missing(IoFailed))
    ensures l.Loaded? ==> io.blob == Some(Encode(l.state)) && StateValid(l.state, g)
  {
    var blob := new Byte[BLOB_BYTES](_ => 0);
    var status := io.ReadBlob(blob);
    if status == NotFound {
      return Missing(Empty);
    }
    if status != Found {
      return Missing(IoFailed);
    }
    var decoded := DecodeState(blob, g);
    if decoded.Some? {
      ViewIsStored(g, io.blob);
    }
    return if decoded.Some? then Loaded(decoded.value) else Missing(Invalid);
  }

  method BeginLocked(io: Io, g: Geometry, expected: U32) returns (l: Loaded)
    ensures l == Begin(View(g, io.blob), expected) || (!io.faultFree && l == Missing(IoFailed))
    ensures l.Loaded? ==> io.blob == Some(Encode(l.state)) && StateValid(l.state, g)
  {
    l := LoadLocked(io, g);
    if l.Loaded? && l.state.sequence != expected {
      l := Missing(Conflict);
    }
  }

  /** Streams the bytes of a package through the digest in pieces of at most 256. */
  method HashFlash(io: Io, g: Geometry, h: Hash, slot: Byte, size: U32, expected: Digest) returns (result: Result)
    ensures Reports(result, HashCheck(g, h, io.flash[..], slot, size, expected), io.faultFree)
  {
    if slot >= SLOT_COUNT || size == 0 || size > g.slots[slot].size {
      return Invalid;
    }
    var base := g.slots[slot].offset;
    var buffer := new Byte[IO_BYTES](_ => 0);
    var absorbed: seq<Byte> := [];
    var offset: nat := 0;
    var ready := io.Ready();
    ghost var flash := io.flash[..];
    while ready && offset < size
      invariant offset <= size && (io.faultFree ==> ready)
      invariant offset > 0 ==> base + offset <= |flash|
      invariant ready && offset == 0 ==> absorbed == []
      invariant ready && offset > 0 ==> absorbed == flash[base..base + offset]
      invariant fresh(buffer) && buffer.Length == IO_BYTES
      modifies buffer
      decreases size - offset, ready
    {
      var count := Chunk(size, offset);
      var ok := io.FlashRead(base + offset, buffer, count);
      if !ok {
        return IoFailed;
      }
      ready := io.Ready();
      if ready {
        Joined(flash, base, base + offset, base + offset + count);
        absorbed := absorbed + buffer[..count];
        offset := offset + count;
      }
    }
    if ready {
      ready := io.Ready();
    }
    if !ready {
      return IoFailed;
    }
    assert absorbed == flash[base..base + size];
    return if h(absorbed) == expected then Ok else Untrusted;
  }

  lemma Joined(s: seq<Byte>, a: nat, b: nat, c: nat)
    requires a <= b <= c <= |s|
    ensures s[a..b] + s[b..c] == s[a..c]
  {
  }

  method CheckReferences(io: Io, g: Geometry, h: Hash, s: State, checkCandidate: bool) returns (result: Result)
    ensures Reports(result, References(g, h, io.flash[..], s, checkCandidate), io.faultFree)
  {
    for index := 0 to BINDING_COUNT
      invariant forall i | 0 <= i < index :: BindingCheck(g, h, io.flash[..], s.bindings[i]) == Ok
    {
      var binding := s.bindings[index];
      if binding.packagePresent {
        result := HashFlash(io, g, h, binding.slot, binding.packageSize, binding.package);
        if result != Ok {
          return;
        }
      }
    }
    if checkCandidate && PREPARED <= s.phase <= HEALTH_VERIFIED {
      result := HashFlash(io, g, h, s.operation.slot, s.operation.packageSize, s.operation.package);
      return;
    }
    return Ok;
  }

  // ------------------------------------------------------------------ writing the record

  /**
   Writes a record and reads it back. Ok proves the new record is stored and IoFailed that
   the old one is; the two are told apart because records are unique.
   */
  method PersistLocked(io: Io, before: Option<State>, after: State) returns (result: Result)
    requires before.Some? ==> io.blob == Some(Encode(before.value)) && before.value != after
    modifies io`blob
    ensures io.blob == old(io.blob) || io.blob == Some(Encode(after))
    ensures result == Ok || result == IoFailed || result == Uncertain
    ensures result == Ok ==> io.blob == Some(Encode(after))
    ensures result == IoFailed ==> before.Some? && io.blob == old(io.blob) != Some(Encode(after))
    ensures io.faultFree ==> result == Ok
  {
    var desired, observed, previous := new Byte[BLOB_BYTES], new Byte[BLOB_BYTES], new Byte[BLOB_BYTES];
    EncodeState(after, desired);
    if before.Some? {
      EncodeState(before.value, previous);
      if Encode(before.value) == Encode(after) {
        EncodeInjective(before.value, after);
      }
    }
    var committed := io.WriteBlob(desired);
    var status := io.ReadBlob(observed);
    if status != Found {
      return Uncertain;
    }
    if observed[..] == desired[..] {
      return if committed then Ok else Uncertain;
    }
    if before.Some? && observed[..] == previous[..] {
      return IoFailed;
    }
    return Uncertain;
  }

  method CommitNext(io: Io, g: Geometry, before: State, next: State) returns (result: Result, stored: Option<State>)
    requires io.blob == Some(Encode(before))
    modifies io`blob
    ensures Completed(old(io.blob), Advance(g, before, next), io.faultFree, result, io.blob)
    ensures stored == if result == Ok then Some(Advance(g, before, next).next) else None
  {
    stored := None;
    if before.sequence == U32_MAX {
      return Invalid, None;
    }
    var n := next.(sequence := before.sequence + 1);
    var ok := CheckState(n, g);
    if !ok {
      return Invalid, None;
    }
    result := PersistLocked(io, Some(before), n);
    if result == Ok {
      stored := Some(n);
    }
  }

  // ------------------------------------------------------------------ the operations

  method InitializeLocked(io: Io, g: Geometry, h: Hash, f: FirmwareSet, bindings: Bindings) returns (result: Result)
    requires GeometryValid(g) && FirmwareSetValid(f)
    modifies io`blob
    ensures Completed(old(io.blob), DecideInitialize(g, h, old(Device(g, io)), f, bindings), io.faultFree, result,
                      io.blob)
  {
    var l := LoadLocked(io, g);
    if l.Loaded? {
      return Conflict;
    }
    if l.result != Empty {
      return l.result;
    }
    var initial := State(1, bindings, IDLE, NO_OPERATION);
    var valid := CheckState(initial, g);
    if !valid {
      return Invalid;
    }
    var matches := CheckFirmwareSetMatches(initial, g, f);
    if !matches {
      return Invalid;
    }
    result := CheckReferences(io, g, h, initial, false);
    if result == Ok {
      result := PersistLocked(io, None, initial);
    }
  }

  /** Stores the first record. */
  method Initialize(io: Io, g: Geometry, h: Hash, f: FirmwareSet, bindings: Bindings) returns (result: Result)
    modifies io`blob, io`held
    ensures io.held == old(io.held)
    ensures Completed(old(io.blob), DecideInitialize(g, h, old(Device(g, io)), f, bindings),
                      io.faultFree && !old(io.held), result, io.blob)
  {
    var placed := CheckGeometry(g);
    var bootable := CheckFirmwareSet(f);
    if !placed || !bootable {
      return Invalid;
    }
    var locked := io.Lock();
    if !locked {
      return Busy;
    }
    result := InitializeLocked(io, g, h, f, bindings);
    io.Unlock();
  }

  method RequestLocked(io: Io, g: Geometry, h: Hash, s: State, f: FirmwareSet, o: Operation)
    returns (result: Result, stored: Option<State>)
    requires RequestValid(f, o) && io.blob == Some(Encode(s)) && StateValid(s, g)
    modifies io`blob
    ensures Completed(old(io.blob), DecideRequest(g, h, io.flash[..], s, f, o), io.faultFree, result, io.blob)
    ensures stored == if result == Ok then Some(DecideRequest(g, h, io.flash[..], s, f, o).next) else None
  {
    var matches := CheckFirmwareSetMatches(s, g, f);
    if !matches {
      return Conflict, None;
    }
    var index := BindingForFirmware(s, f.running);
    if index < 0 || (s.bindings[index].packagePresent && s.bindings[index].dataSchema != o.dataSchema) {
      return Conflict, None;
    }
    result := CheckReferences(io, g, h, s, true);
    if result != Ok {
      return result, None;
    }
    result, stored := TakeRequest(io, g, s, o);
  }

  /** A request for a firmware that may have it, on intact packages. */
  method TakeRequest(io: Io, g: Geometry, s: State, o: Operation) returns (result: Result, stored: Option<State>)
    requires io.blob == Some(Encode(s)) && StateValid(s, g)
    modifies io`blob
    ensures Completed(old(io.blob), DecideFresh(g, s, o), io.faultFree, result, io.blob)
    ensures stored == if result == Ok then Some(DecideFresh(g, s, o).next) else None
  {
    if s.phase != IDLE && s.operation.id == o.id {
      return if SameRequest(s.operation, o) then Busy else Conflict, None;
    }
    if WRITING <= s.phase <= HEALTH_VERIFIED {
      return Busy, None;
    }
    var selected := SelectSlot(s, g, o.packageSize);
    if selected == SLOT_COUNT {
      return NoSpace, None;
    }
    result, stored := CommitNext(io, g, s, s.(phase := WRITING, operation := o.(slot := selected)));
  }

  method ReserveLocked(io: Io, g: Geometry, h: Hash, expected: U32, f: FirmwareSet, o: Operation)
    returns (result: Result, stored: Option<State>)
    requires GeometryValid(g) && RequestValid(f, o)
    modifies io`blob
    ensures Completed(old(io.blob), DecideReserve(g, h, old(Device(g, io)), expected, f, o), io.faultFree, result,
                      io.blob)
    ensures stored == if result == Ok then Some(DecideReserve(g, h, old(Device(g, io)), expected, f, o).next) else None
  {
    var l := BeginLocked(io, g, expected);
    if l.Missing? {
      return l.result, None;
    }
    result, stored := RequestLocked(io, g, h, l.state, f, o);
  }

  /** Reserves an unreferenced slot in the record before anything may be erased. */
  method Reserve(io: Io, g: Geometry, h: Hash, expected: U32, f: FirmwareSet, o: Operation)
    returns (result: Result, stored: Option<State>)
    modifies io`blob, io`held
    ensures io.held == old(io.held)
    ensures Completed(old(io.blob), DecideReserve(g, h, old(Device(g, io)), expected, f, o),
                      io.faultFree && !old(io.held), result, io.blob)
    ensures stored == if result == Ok then Some(DecideReserve(g, h, old(Device(g, io)), expected, f, o).next) else None
  {
    var placed := CheckGeometry(g);
    var bootable := CheckFirmwareSet(f);
    if !placed || !bootable || AllZero(o.id) || AllZero(o.package) || o.target != f.running
      || o.slot != 0 || o.packageSize == 0 || o.guestAbi == 0 || o.dataSchema == 0 || !AllZero(o.trialBoot)
    {
      return Invalid, None;
    }
    var locked := io.Lock();
    if !locked {
      return Busy, None;
    }
    result, stored := ReserveLocked(io, g, h, expected, f, o);
    io.Unlock();
  }

  method BeginTrialLocked(io: Io, g: Geometry, h: Hash, expected: U32, running: Digest, boot: Id)
    returns (result: Result, stored: Option<State>)
    requires GeometryValid(g) && !AllZero(boot)
    modifies io`blob
    ensures Completed(old(io.blob), DecideBeginTrial(g, h, old(Device(g, io)), expected, running, boot),
                      io.faultFree, result, io.blob)
    ensures stored ==
            if result == Ok then Some(DecideBeginTrial(g, h, old(Device(g, io)), expected, running, boot).next)
            else None
  {
    var l := BeginLocked(io, g, expected);
    if l.Missing? {
      return l.result, None;
    }
    var s := l.state;
    if s.phase != PREPARED || s.operation.target != running {
      return Conflict, None;
    }
    result := CheckReferences(io, g, h, s, true);
    if result != Ok {
      return result, None;
    }
    result, stored := CommitNext(io, g, s, s.(phase := TRIAL_STARTED, operation := s.operation.(trialBoot := boot)));
  }

  /** Records the boot id of a trial before the candidate is started. */
  method BeginTrial(io: Io, g: Geometry, h: Hash, expected: U32, running: Digest, boot: Id)
    returns (result: Result, stored: Option<State>)
    modifies io`blob, io`held
    ensures io.held == old(io.held)
    ensures Completed(old(io.blob), DecideBeginTrial(g, h, old(Device(g, io)), expected, running, boot),
                      io.faultFree && !old(io.held), result, io.blob)
    ensures stored ==
            if result == Ok then Some(DecideBeginTrial(g, h, old(Device(g, io)), expected, running, boot).next)
            else None
  {
    var placed := CheckGeometry(g);
    if !placed || AllZero(boot) {
      return Invalid, None;
    }
    var locked := io.Lock();
    if !locked {
      return Busy, None;
    }
    result, stored := BeginTrialLocked(io, g, h, expected, running, boot);
    io.Unlock();
  }

  method MarkHealthyLocked(io: Io, g: Geometry, h: Hash, expected: U32, boot: Id)
    returns (result: Result, stored: Option<State>)
    requires GeometryValid(g)
    modifies io`blob
    ensures Completed(old(io.blob), DecideMarkHealthy(g, h, old(Device(g, io)), expected, boot),
                      io.faultFree, result, io.blob)
    ensures stored == if result == Ok then Some(DecideMarkHealthy(g, h, old(Device(g, io)), expected, boot).next)
                      else None
  {
    var l := BeginLocked(io, g, expected);
    if l.Missing? {
      return l.result, None;
    }
    var s := l.state;
    if s.phase != TRIAL_STARTED || s.operation.trialBoot != boot {
      return Conflict, None;
    }
    result := CheckReferences(io, g, h, s, true);
    if result != Ok {
      return result, None;
    }
    result, stored := CommitNext(io, g, s, s.(phase := HEALTH_VERIFIED));
  }

  /** Records that the trial of this boot is healthy. */
  method MarkHealthy(io: Io, g: Geometry, h: Hash, expected: U32, boot: Id)
    returns (result: Result, stored: Option<State>)
    modifies io`blob, io`held
    ensures io.held == old(io.held)
    ensures Completed(old(io.blob), DecideMarkHealthy(g, h, old(Device(g, io)), expected, boot),
                      io.faultFree && !old(io.held), result, io.blob)
    ensures stored == if result == Ok then Some(DecideMarkHealthy(g, h, old(Device(g, io)), expected, boot).next)
                      else None
  {
    var placed := CheckGeometry(g);
    if !placed {
      return Invalid, None;
    }
    var locked := io.Lock();
    if !locked {
      return Busy, None;
    }
    result, stored := MarkHealthyLocked(io, g, h, expected, boot);
    io.Unlock();
  }

  method DeliverLocked(io: Io, g: Geometry, h: Hash, s: State, running: Digest, boot: Id)
    returns (result: Result, stored: Option<State>)
    requires io.blob == Some(Encode(s)) && StateValid(s, g)
    modifies io`blob
    ensures Completed(old(io.blob), DecideDelivery(g, h, io.flash[..], s, running, boot), io.faultFree, result, io.blob)
    ensures stored == if result == Ok then Some(DecideDelivery(g, h, io.flash[..], s, running, boot).next) else None
  {
    var index := BindingForFirmware(s, running);
    if s.phase != HEALTH_VERIFIED || index < 0 || s.operation.target != running || s.operation.trialBoot != boot {
      return Conflict, None;
    }
    result := CheckReferences(io, g, h, s, true);
    if result != Ok {
      return result, None;
    }
    var binding := s.bindings[index].(
      packagePresent := true, slot := s.operation.slot, packageSize := s.operation.packageSize,
      package := s.operation.package, guestAbi := s.operation.guestAbi, dataSchema := s.operation.dataSchema);
    assert binding == Deliver(s.bindings[index], s.operation);
    result, stored := CommitNext(io, g, s, s.(bindings := s.bindings[index := binding], phase := CONFIRMED));
  }

  method ConfirmLocked(io: Io, g: Geometry, h: Hash, expected: U32, running: Digest, boot: Id)
    returns (result: Result, stored: Option<State>)
    requires GeometryValid(g)
    modifies io`blob
    ensures Completed(old(io.blob), DecideConfirm(g, h, old(Device(g, io)), expected, running, boot),
                      io.faultFree, result, io.blob)
    ensures stored ==
            if result == Ok then Some(DecideConfirm(g, h, old(Device(g, io)), expected, running, boot).next) else None
  {
    var l := BeginLocked(io, g, expected);
    if l.Missing? {
      return l.result, None;
    }
    result, stored := DeliverLocked(io, g, h, l.state, running, boot);
  }

  /** Replaces the running firmware's package by the healthy candidate, in one record write. */
  method Confirm(io: Io, g: Geometry, h: Hash, expected: U32, running: Digest, boot: Id)
    returns (result: Result, stored: Option<State>)
    modifies io`blob, io`held
    ensures io.held == old(io.held)
    ensures Completed(old(io.blob), DecideConfirm(g, h, old(Device(g, io)), expected, running, boot),
                      io.faultFree && !old(io.held), result, io.blob)
    ensures stored ==
            if result == Ok then Some(DecideConfirm(g, h, old(Device(g, io)), expected, running, boot).next) else None
  {
    var placed := CheckGeometry(g);
    if !placed {
      return Invalid, None;
    }
    var locked := io.Lock();
    if !locked {
      return Busy, None;
    }
    result, stored := ConfirmLocked(io, g, h, expected, running, boot);
    io.Unlock();
  }

  method AbandonLocked(io: Io, g: Geometry, h: Hash, expected: U32, boot: Id, stopped: bool)
    returns (result: Result, stored: Option<State>)
    requires GeometryValid(g)
    modifies io`blob
    ensures Completed(old(io.blob), DecideAbandon(g, h, old(Device(g, io)), expected, boot, stopped),
                      io.faultFree, result, io.blob)
    ensures stored ==
            if result == Ok then Some(DecideAbandon(g, h, old(Device(g, io)), expected, boot, stopped).next) else None
  {
    var l := BeginLocked(io, g, expected);
    if l.Missing? {
      return l.result, None;
    }
    var s := l.state;
    if s.phase < WRITING || s.phase > HEALTH_VERIFIED {
      return Conflict, None;
    }
    if s.phase >= TRIAL_STARTED && s.operation.trialBoot == boot && !stopped {
      return Busy, None;
    }
    result := CheckReferences(io, g, h, s, false);
    if result != Ok {
      return result, None;
    }
    result, stored := CommitNext(io, g, s, s.(phase := ABORTED));
  }

  /** Cancels the pending operation; `stopped` is the answer of the trial's owner, if there is one. */
  method Abandon(io: Io, g: Geometry, h: Hash, expected: U32, boot: Id, stopped: bool)
    returns (result: Result, stored: Option<State>)
    modifies io`blob, io`held
    ensures io.held == old(io.held)
    ensures Completed(old(io.blob), DecideAbandon(g, h, old(Device(g, io)), expected, boot, stopped),
                      io.faultFree && !old(io.held), result, io.blob)
    ensures stored ==
            if result == Ok then Some(DecideAbandon(g, h, old(Device(g, io)), expected, boot, stopped).next) else None
  {
    var placed := CheckGeometry(g);
    if !placed {
      return Invalid, None;
    }
    var locked := io.Lock();
    if !locked {
      return Busy, None;
    }
    result, stored := AbandonLocked(io, g, h, expected, boot, stopped);
    io.Unlock();
  }

  // ------------------------------------------------------------------ writing the package

  method GateLocked(io: Io, g: Geometry, h: Hash, expected: U32) returns (l: Loaded)
    requires GeometryValid(g)
    ensures l == PrepareGate(g, h, Device(g, io), expected) || (!io.faultFree && l == Missing(IoFailed))
    ensures l.Loaded? ==> io.blob == Some(Encode(l.state)) && StateValid(l.state, g)
  {
    l := BeginLocked(io, g, expected);
    if l.Loaded? {
      if l.state.phase != WRITING {
        return Missing(Conflict);
      }
      var result := CheckReferences(io, g, h, l.state, false);
      if result != Ok {
        return Missing(result);
      }
    }
  }

  /** The validation callback reads the slot and answers; it may fail to read, but not accept wrongly. */
  method Validate(io: Io, accepts: bool) returns (result: Result)
    ensures Reports(result, if accepts then Ok else Untrusted, io.faultFree)
  {
    var ready := io.Ready();
    if !ready {
      return IoFailed;
    }
    return if accepts then Ok else Untrusted;
  }

  /** After the slot is written: read it back, have it validated and record that it is prepared. */
  method FinishLocked(io: Io, g: Geometry, h: Hash, s: State, accepts: bool)
    returns (result: Result, stored: Option<State>)
    requires io.blob == Some(Encode(s))
    modifies io`blob
    ensures Completed(old(io.blob), DecidePrepared(g, h, io.flash[..], s, accepts), io.faultFree, result, io.blob)
    ensures stored == if result == Ok then Some(DecidePrepared(g, h, io.flash[..], s, accepts).next) else None
  {
    result := HashFlash(io, g, h, s.operation.slot, s.operation.packageSize, s.operation.package);
    if result == Ok {
      result := Validate(io, accepts);
    }
    if result != Ok {
      return result, None;
    }
    result, stored := CommitNext(io, g, s, s.(phase := PREPARED));
  }

  /** A device without faults, large enough, and a source that delivers the whole package. */
  predicate AllWell(io: Io, g: Geometry, source: Source, size: nat) {
    io.faultFree && io.flash.Length >= PartitionEnd(g) && source.faithful && |source.content| >= size
  }

  method WriteLocked(io: Io, g: Geometry, h: Hash, s: State, source: Source, accepts: bool)
    returns (result: Result, stored: Option<State>, ghost made: seq<Access>)
    requires GeometryValid(g) && io.blob == Some(Encode(s)) && StateValid(s, g) && s.phase == WRITING
    modifies io`blob, io`accesses, io.flash
    ensures io.accesses == old(io.accesses) + made && [] != made <= Plan(g, s.operation.slot, s.operation.packageSize)
    ensures AgreeOutside(old(io.flash[..]), io.flash[..], g.slots[s.operation.slot])
    ensures Completed(old(io.blob), DecidePrepared(g, h, io.flash[..], s, accepts),
                      AllWell(io, g, source, s.operation.packageSize), result, io.blob)
    ensures stored == if result == Ok then Some(DecidePrepared(g, h, io.flash[..], s, accepts).next) else None
    ensures AllWell(io, g, source, s.operation.packageSize) ==>
              && End(g.slots[s.operation.slot]) <= io.flash.Length
              && made == Plan(g, s.operation.slot, s.operation.packageSize)
              && io.flash[..] == Programmed(old(io.flash[..]), g.slots[s.operation.slot],
                                            source.content[..s.operation.packageSize])
  {
    var ok;
    ghost var delivered;
    ok, made, delivered := WriteSlot(io, g, s.operation.slot, s.operation.packageSize, source);
    if ok {
      result, stored := FinishLocked(io, g, h, s, accepts);
    } else {
      result, stored := IoFailed, None;
    }
  }

  method PrepareLocked(io: Io, g: Geometry, h: Hash, expected: U32, source: Source, accepts: bool)
    returns (result: Result, stored: Option<State>, ghost made: seq<Access>)
    requires GeometryValid(g)
    modifies io`blob, io`accesses, io.flash
    ensures io.accesses == old(io.accesses) + made
    ensures var gate := PrepareGate(g, h, old(Device(g, io)), expected);
            if made == [] then
              && io.flash[..] == old(io.flash[..]) && stored.None?
              && Completed(old(io.blob), Refuse(if gate.Missing? then gate.result else IoFailed),
                           io.faultFree && gate.Missing?, result, io.blob)
            else
              && gate.Loaded?
              && Written(g, old(io.flash[..]), io.flash[..], gate.state, made)
              && Completed(old(io.blob), DecidePrepared(g, h, io.flash[..], gate.state, accepts),
                           AllWell(io, g, source, gate.state.operation.packageSize), result, io.blob)
              && stored == if result == Ok then Some(DecidePrepared(g, h, io.flash[..], gate.state, accepts).next)
                           else None
    ensures var gate := PrepareGate(g, h, old(Device(g, io)), expected);
            gate.Loaded? && AllWell(io, g, source, gate.state.operation.packageSize) ==>
              WrittenFully(g, old(io.flash[..]), io.flash[..], gate.state.operation, source.content, made)
  {
    stored, made := None, [];
    var l := GateLocked(io, g, h, expected);
    if l.Missing? {
      return l.result, None, [];
    }
    result, stored, made := WriteLocked(io, g, h, l.state, source, accepts);
  }

  /**
   Writes the package into the reserved slot and records it as prepared. Nothing is erased
   unless the gate is open; then only the reserved slot changes, by accesses of the plan,
   and the record afterwards is what the bytes now in Flash deserve.
   */
  method WriteAndPrepare(io: Io, g: Geometry, h: Hash, expected: U32, source: Source, accepts: bool)
    returns (result: Result, stored: Option<State>, ghost made: seq<Access>)
    modifies io`blob, io`held, io`accesses, io.flash
    ensures io.held == old(io.held)
    ensures io.accesses == old(io.accesses) + made
    ensures var gate := PrepareGate(g, h, old(Device(g, io)), expected);
            if made == [] then
              && io.flash[..] == old(io.flash[..]) && stored.None?
              && Completed(old(io.blob), Refuse(if gate.Missing? then gate.result else IoFailed),
                           io.faultFree && !old(io.held) && gate.Missing?, result, io.blob)
            else
              && gate.Loaded?
              && Written(g, old(io.flash[..]), io.flash[..], gate.state, made)
              && Completed(old(io.blob), DecidePrepared(g, h, io.flash[..], gate.state, accepts),
                           AllWell(io, g, source, gate.state.operation.packageSize), result, io.blob)
              && stored == if result == Ok then Some(DecidePrepared(g, h, io.flash[..], gate.state, accepts).next)
                           else None
    ensures var gate := PrepareGate(g, h, old(Device(g, io)), expected);
            gate.Loaded? && !old(io.held) && AllWell(io, g, source, gate.state.operation.packageSize) ==>
              WrittenFully(g, old(io.flash[..]), io.flash[..], gate.state.operation, source.content, made)
  {
    stored, made := None, [];
    var placed := CheckGeometry(g);
    if !placed {
      return Invalid, None, [];
    }
    var locked := io.Lock();
    if !locked {
      return Busy, None, [];
    }
    result, stored, made := PrepareLocked(io, g, h, expected, source, accepts);
    io.Unlock();
  }

  /** Only the reserved slot changed, and only by accesses of its plan. */
  predicate Written(g: Geometry, before: seq<Byte>, after: seq<Byte>, s: State, made: seq<Access>) {
    && GeometryValid(g) && StateValid(s, g) && s.phase == WRITING
    && AgreeOutside(before, after, g.slots[s.operation.slot])
    && made <= Plan(g, s.operation.slot, s.operation.packageSize)
  }

  /** The whole plan was carried out, and the slot holds the package followed by erased bytes. */
  predicate WrittenFully(
    g: Geometry, before: seq<Byte>, after: seq<Byte>, o: Operation, content: seq<Byte>, made: seq<Access>)
  {
    && g.writeUnit > 0 && o.slot < SLOT_COUNT && |content| >= o.packageSize && o.packageSize <= g.slots[o.slot].size
    && End(g.slots[o.slot]) <= |before|
    && made == Plan(g, o.slot, o.packageSize)
    && after == Programmed(before, g.slots[o.slot], content[..o.packageSize])
  }

  // ------------------------------------------------------------------ start-up

  /**
   How start-up ends when a read fails: blocked with nothing returned, or, once the confirmed
   packages have been found intact, recovered without the candidate that could not be read.
   */
  predicate BootFailed(g: Geometry, h: Hash, flash: seq<Byte>, s: State, f: FirmwareSet, boot: Boot) {
    || boot == Boot(IoFailed, Blocked, None)
    || (boot == Boot(IoFailed, RecoverConfirmedCandidateInvalid, Some(s)) && HasCandidate(s.phase)
        && FirmwareSetMatches(s, f) && References(g, h, flash, s, false) == Ok)
  }

  method BootLocked(io: Io, g: Geometry, h: Hash, s: State, f: FirmwareSet) returns (boot: Boot)
    requires StateValid(s, g) && FirmwareSetValid(f)
    ensures boot == BootFrom(g, h, io.flash[..], s, f) || (!io.faultFree && BootFailed(g, h, io.flash[..], s, f, boot))
  {
    var matches := CheckFirmwareSetMatches(s, g, f);
    if !matches {
      return Boot(Conflict, Blocked, None);
    }
    var result := CheckReferences(io, g, h, s, false);
    if result != Ok {
      return Boot(result, Blocked, None);
    }
    if PREPARED <= s.phase <= HEALTH_VERIFIED {
      result := HashFlash(io, g, h, s.operation.slot, s.operation.packageSize, s.operation.package);
      if result != Ok {
        return Boot(result, RecoverConfirmedCandidateInvalid, Some(s));
      }
    }
    return Boot(Ok, if WRITING <= s.phase <= HEALTH_VERIFIED then RecoverConfirmed else RunConfirmed, Some(s));
  }

  /** Start-up decides what record and Flash deserve, or finds that it cannot read them. */
  predicate BootReports(g: Geometry, h: Hash, w: World, f: FirmwareSet, clean: bool, boot: Boot) {
    || boot == DecideBoot(g, h, w, f)
    || (!clean && Load(w.record).Missing? && boot == Boot(IoFailed, Blocked, None))
    || (!clean && Load(w.record).Loaded? && BootFailed(g, h, w.flash, Load(w.record).state, f, boot))
  }

  method ReconcileLocked(io: Io, g: Geometry, h: Hash, f: FirmwareSet) returns (boot: Boot)
    requires GeometryValid(g) && FirmwareSetValid(f)
    ensures BootReports(g, h, Device(g, io), f, io.faultFree, boot)
  {
    var l := LoadLocked(io, g);
    if l.Missing? {
      boot := Boot(l.result, Blocked, None);
    } else {
      ViewIsLoaded(g, io.blob, l);
      boot := BootLocked(io, g, h, l.state, f);
    }
  }

  lemma ViewIsLoaded(g: Geometry, blob: Option<Blob>, l: Loaded)
    requires l.Loaded? && blob == Some(Encode(l.state)) && StateValid(l.state, g)
    ensures Load(View(g, blob)) == l
  {
    StoredViews(g, l.state);
  }

  /** Compares record, firmware and Flash at start-up without changing any of them. */
  method Reconcile(io: Io, g: Geometry, h: Hash, f: FirmwareSet) returns (boot: Boot)
    modifies io`held
    ensures io.held == old(io.held)
    ensures BootReports(g, h, old(Device(g, io)), f, io.faultFree, boot)
         || (!(io.faultFree && !old(io.held)) && boot == Boot(Busy, Blocked, None))
    ensures boot.decision == RunConfirmed || boot.decision == RecoverConfirmed ==> boot.result == Ok
  {
    var placed := CheckGeometry(g);
    var bootable := CheckFirmwareSet(f);
    if !placed || !bootable {
      return Boot(Invalid, Blocked, None);
    }
    var locked := io.Lock();
    if !locked {
      return Boot(Busy, Blocked, None);
    }
    boot := ReconcileLocked(io, g, h, f);
    io.Unlock();
  }

  /** Reads the state back, or nothing at all. */
  method LoadState(io: Io, g: Geometry) returns (result: Result, state: Option<State>)
    modifies io`held
    ensures io.held == old(io.held)
    ensures state.Some? <==> result == Ok
    ensures result == Ok ==> GeometryValid(g) && io.blob == Some(Encode(state.value)) && StateValid(state.value, g)
    ensures io.faultFree && !old(io.held) && GeometryValid(g) ==>
              Load(View(g, io.blob)) == if result == Ok then Loaded(state.value) else Missing(result)
  {
    var placed := CheckGeometry(g);
    if !placed {
      return Invalid, None;
    }
    var locked := io.Lock();
    if !locked {
      return Busy, None;
    }
    var l := LoadLocked(io, g);
    io.Unlock();
    if l.Missing? {
      return l.result, None;
    }
    return Ok, Some(l.state);
  }

  /** Whatever writing a package does to the Flash is damage the protocol allows, */
  lemma WriteIsDamage(g: Geometry, h: Hash, s: State, flash: seq<Byte>, flash': seq<Byte>, made: seq<Access>)
    requires Written(g, flash, flash', s, made)
    ensures StepOk(g, h, World(Holding(s), flash), Damage, World(Holding(s), flash'))
  {
  }

  /** and what it then does to the record is one commit or none. */
  lemma WriteIsCommit(
    g: Geometry, h: Hash, s: State, flash: seq<Byte>, flash': seq<Byte>, accepts: bool, clean: bool,
    result: Result, after: Option<Blob>)
    requires StateValid(s, g) && PrepareGate(g, h, World(Holding(s), flash), s.sequence) == Loaded(s)
    requires AgreeOutside(flash, flash', g.slots[s.operation.slot])
    requires Completed(Some(Encode(s)), DecidePrepared(g, h, flash', s, accepts), clean, result, after)
    ensures var w, w' := World(Holding(s), flash'), World(View(g, after), flash');
            StepOk(g, h, w, Stay, w') || StepOk(g, h, w, Do(Call.Prepare(s.sequence, accepts)), w')
  {
    GateStaysOpen(g, h, s, flash, flash', accepts);
    StoredViews(g, s);
    CompletedIsStep(g, h, Some(Encode(s)), flash', Call.Prepare(s.sequence, accepts), clean, result, after);
  }

  /** Writing the reserved slot does not close the gate it went through. */
  lemma GateStaysOpen(g: Geometry, h: Hash, s: State, flash: seq<Byte>, flash': seq<Byte>, accepts: bool)
    requires StateValid(s, g) && PrepareGate(g, h, World(Holding(s), flash), s.sequence) == Loaded(s)
    requires AgreeOutside(flash, flash', g.slots[s.operation.slot])
    ensures PrepareGate(g, h, World(Holding(s), flash'), s.sequence) == Loaded(s)
    ensures DecidePrepare(g, h, World(Holding(s), flash'), s.sequence, accepts) ==
            DecidePrepared(g, h, flash', s, accepts)
    ensures DecidePrepared(g, h, flash', s, accepts).Commit? ==>
              StateValid(DecidePrepared(g, h, flash', s, accepts).next, g)
  {
    BindingCheckFrame(g, h, flash, flash', s.operation.slot, s.bindings[0]);
    BindingCheckFrame(g, h, flash, flash', s.operation.slot, s.bindings[1]);
  }

  // ------------------------------------------------------------------ safety of the operations

  /** Each record operation, however it ends, leaves every confirmed package intact. */
  lemma OperationKeepsGood(
    g: Geometry, h: Hash, before: Option<Blob>, flash: seq<Byte>, call: Call, clean: bool, result: Result,
    after: Option<Blob>)
    requires WorldGood(g, h, World(View(g, before), flash))
    requires Completed(before, Decide(g, h, World(View(g, before), flash), call), clean, result, after)
    ensures WorldGood(g, h, World(View(g, after), flash))
  {
    var w, w' := World(View(g, before), flash), World(View(g, after), flash);
    CompletedIsStep(g, h, before, flash, call, clean, result, after);
    if StepOk(g, h, w, Stay, w') {
      StepKeepsGood(g, h, w, Stay, w');
    } else {
      StepKeepsGood(g, h, w, Do(call), w');
    }
  }

  /** So does writing a package, also when it stops half way. */
  lemma WriteKeepsGood(
    g: Geometry, h: Hash, s: State, flash: seq<Byte>, flash': seq<Byte>, made: seq<Access>, accepts: bool,
    clean: bool, result: Result, after: Option<Blob>)
    requires WorldGood(g, h, World(Holding(s), flash)) && Written(g, flash, flash', s, made)
    requires PrepareGate(g, h, World(Holding(s), flash), s.sequence) == Loaded(s)
    requires Completed(Some(Encode(s)), DecidePrepared(g, h, flash', s, accepts), clean, result, after)
    ensures WorldGood(g, h, World(View(g, after), flash'))
  {
    var w, w' := World(Holding(s), flash'), World(View(g, after), flash');
    WriteIsDamage(g, h, s, flash, flash', made);
    StepKeepsGood(g, h, World(Holding(s), flash), Damage, w);
    WriteIsCommit(g, h, s, flash, flash', accepts, clean, result, after);
    var call := Call.Prepare(s.sequence, accepts);
    if StepOk(g, h, w, Stay, w') {
      StepKeepsGood(g, h, w, Stay, w');
    } else {
      StepKeepsGood(g, h, w, Do(call), w');
    }
  }
}
