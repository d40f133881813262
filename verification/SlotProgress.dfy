/**
 When the package store can move on: which refusals are possible, and that fault-free
 calls install any well-formed package, also over a damaged candidate.
 */
module SlotProgress {
  import opened Octets
  import opened SlotState
  import opened SlotProtocol

  /** What each operation checks about its own arguments before it looks at the record. */
  predicate ArgumentsValid(g: Geometry, call: Call) {
    && GeometryValid(g)
    && match call
       case Initialize(f, _) => FirmwareSetValid(f)
       case Reserve(_, f, o) => RequestValid(f, o)
       case BeginTrial(_, _, boot) => !AllZero(boot)
       case _ => true
  }

  function Apply(g: Geometry, h: Hash, w: World, call: Call): World {
    var d := Decide(g, h, w, call);
    if d.Commit? then World(Holding(d.next), w.flash) else w
  }

  /** The Flash after a fault-free erase of a slot and write of content. */
  function Programmed(flash: seq<Byte>, r: Region, content: seq<Byte>): (after: seq<Byte>)
    requires End(r) <= |flash| && |content| <= r.size
    ensures |after| == |flash|
  {
    flash[..r.offset] + content + Fill(r.size - |content|, 0xff) + flash[End(r)..]
  }

  lemma ProgrammedAgrees(flash: seq<Byte>, r: Region, content: seq<Byte>)
    requires End(r) <= |flash| && |content| <= r.size
    ensures AgreeOutside(flash, Programmed(flash, r, content), r)
    ensures Programmed(flash, r, content)[r.offset..r.offset + |content|] == content
  {
  }

  /** A valid state whose confirmed packages are intact; nothing is said about the candidate. */
  predicate Sound(g: Geometry, h: Hash, flash: seq<Byte>, s: State) {
    && GeometryValid(g) && StateValid(s, g) && BindingsIntact(g, h, flash, s)
    && |flash| >= PartitionEnd(g)
  }

  /** A world whose record is s. */
  predicate Holds(g: Geometry, h: Hash, w: World, s: State) {
    w.record == Holding(s) && Sound(g, h, w.flash, s)
  }

  lemma ApplyCommits(g: Geometry, h: Hash, w: World, call: Call, t: State)
    requires Decide(g, h, w, call) == Commit(t) && Sound(g, h, w.flash, t)
    ensures Holds(g, h, Apply(g, h, w, call), t)
    ensures Apply(g, h, w, call).flash == w.flash
  {
  }

  lemma AdvanceCommits(g: Geometry, s: State, next: State)
    requires s.sequence < U32_MAX && StateValid(next.(sequence := s.sequence + 1), g)
    ensures Advance(g, s, next) == Commit(next.(sequence := s.sequence + 1))
  {
  }

  /** An operation that may be cancelled now. */
  predicate Cancellable(s: State, boot: Id, stopped: bool) {
    Pending(s.phase) && (s.phase >= TRIAL_STARTED && s.operation.trialBoot == boot ==> stopped)
  }

  function Next(s: State, phase: Byte): State
    requires s.sequence < U32_MAX
  {
    s.(phase := phase, sequence := s.sequence + 1)
  }

  lemma NextIsValid(g: Geometry, s: State, phase: Byte)
    requires StateValid(s, g) && s.sequence < U32_MAX && Pending(s.phase)
    requires phase == ABORTED || (s.phase == WRITING && phase == PREPARED)
          || (s.phase == TRIAL_STARTED && phase == HEALTH_VERIFIED)
    ensures StateValid(Next(s, phase), g)
  {
  }

  lemma AbandonWorks(g: Geometry, h: Hash, w: World, s: State, boot: Id, stopped: bool)
    requires Holds(g, h, w, s) && s.sequence < U32_MAX && Cancellable(s, boot, stopped)
    ensures DecideAbandon(g, h, w, s.sequence, boot, stopped) == Commit(Next(s, ABORTED))
    ensures Sound(g, h, w.flash, Next(s, ABORTED))
  {
    NextIsValid(g, s, ABORTED);
    AdvanceCommits(g, s, s.(phase := ABORTED));
  }

  /** A request that a store in state s can take: fresh, of the right schema, and not too large. */
  predicate Acceptable(g: Geometry, s: State, f: FirmwareSet, o: Operation) {
    && RequestValid(f, o) && FirmwareSetMatches(s, f) && SchemaAllows(s, f.running, o.dataSchema)
    && (s.phase != IDLE ==> s.operation.id != o.id)
    && SelectedSlot(s, g, o.packageSize) < SLOT_COUNT
  }

  function Reserved(g: Geometry, s: State, o: Operation): State
    requires s.sequence < U32_MAX
  {
    var slot := SelectedSlot(s, g, o.packageSize);
    s.(sequence := s.sequence + 1, phase := WRITING, operation := o.(slot := slot))
  }

  lemma ReservedIsValid(g: Geometry, s: State, f: FirmwareSet, o: Operation)
    requires StateValid(s, g) && s.sequence < U32_MAX && !Pending(s.phase) && Acceptable(g, s, f, o)
    ensures StateValid(Reserved(g, s, o), g)
  {
    var t := Reserved(g, s, o);
    assert !Referenced(s, t.operation.slot);
    assert Names(t.bindings[FirmwareIndex(s, f.running)], t.operation.target);
  }

  lemma ReserveWorks(g: Geometry, h: Hash, w: World, s: State, f: FirmwareSet, o: Operation)
    requires Holds(g, h, w, s) && s.sequence < U32_MAX && !Pending(s.phase) && Acceptable(g, s, f, o)
    ensures DecideReserve(g, h, w, s.sequence, f, o) == Commit(Reserved(g, s, o))
    ensures Sound(g, h, w.flash, Reserved(g, s, o))
  {
    ReservedIsValid(g, s, f, o);
  }

  lemma WriteWorks(g: Geometry, h: Hash, flash: seq<Byte>, s: State, content: seq<Byte>)
    requires Sound(g, h, flash, s) && s.phase == WRITING
    requires |content| == s.operation.packageSize && h(content) == s.operation.package
    ensures End(g.slots[s.operation.slot]) <= |flash|
    ensures var after := Programmed(flash, g.slots[s.operation.slot], content);
            Sound(g, h, after, s) && CandidateCheck(g, h, after, s.operation) == Ok
  {
    var slot := s.operation.slot;
    assert Placed(g, g.slots[slot]);
    var after := Programmed(flash, g.slots[slot], content);
    ProgrammedAgrees(flash, g.slots[slot], content);
    BindingCheckFrame(g, h, flash, after, slot, s.bindings[0]);
    BindingCheckFrame(g, h, flash, after, slot, s.bindings[1]);
  }

  lemma PrepareWorks(g: Geometry, h: Hash, w: World, s: State)
    requires Holds(g, h, w, s) && s.sequence < U32_MAX && s.phase == WRITING
    requires CandidateCheck(g, h, w.flash, s.operation) == Ok
    ensures DecidePrepare(g, h, w, s.sequence, true) == Commit(Next(s, PREPARED))
    ensures Sound(g, h, w.flash, Next(s, PREPARED))
  {
    NextIsValid(g, s, PREPARED);
    AdvanceCommits(g, s, s.(phase := PREPARED));
  }

  function Tried(s: State, boot: Id): State
    requires s.sequence < U32_MAX
  {
    s.(phase := TRIAL_STARTED, sequence := s.sequence + 1, operation := s.operation.(trialBoot := boot))
  }

  lemma TriedIsValid(g: Geometry, s: State, boot: Id)
    requires StateValid(s, g) && s.sequence < U32_MAX && s.phase == PREPARED && !AllZero(boot)
    ensures StateValid(Tried(s, boot), g)
  {
  }

  lemma BeginTrialWorks(g: Geometry, h: Hash, w: World, s: State, boot: Id)
    requires Holds(g, h, w, s) && s.sequence < U32_MAX && s.phase == PREPARED && !AllZero(boot)
    requires CandidateCheck(g, h, w.flash, s.operation) == Ok
    ensures DecideBeginTrial(g, h, w, s.sequence, s.operation.target, boot) == Commit(Tried(s, boot))
    ensures Sound(g, h, w.flash, Tried(s, boot))
  {
    TriedIsValid(g, s, boot);
  }

  lemma MarkHealthyWorks(g: Geometry, h: Hash, w: World, s: State)
    requires Holds(g, h, w, s) && s.sequence < U32_MAX && s.phase == TRIAL_STARTED
    requires CandidateCheck(g, h, w.flash, s.operation) == Ok
    ensures DecideMarkHealthy(g, h, w, s.sequence, s.operation.trialBoot) == Commit(Next(s, HEALTH_VERIFIED))
    ensures Sound(g, h, w.flash, Next(s, HEALTH_VERIFIED))
  {
    NextIsValid(g, s, HEALTH_VERIFIED);
    AdvanceCommits(g, s, s.(phase := HEALTH_VERIFIED));
  }

  function Confirmed(s: State): State
    requires s.sequence < U32_MAX && FirmwareIndex(s, s.operation.target) >= 0
  {
    var index := FirmwareIndex(s, s.operation.target);
    s.(phase := CONFIRMED, sequence := s.sequence + 1,
       bindings := s.bindings[index := Deliver(s.bindings[index], s.operation)])
  }

  lemma ConfirmedIsValid(g: Geometry, s: State)
    requires StateValid(s, g) && s.sequence < U32_MAX && s.phase == HEALTH_VERIFIED
    ensures FirmwareIndex(s, s.operation.target) >= 0
    ensures StateValid(Confirmed(s), g)
    ensures FirmwareIndex(Confirmed(s), s.operation.target) == FirmwareIndex(s, s.operation.target)
    ensures Delivers(s.operation, Confirmed(s).bindings[FirmwareIndex(s, s.operation.target)])
  {
    var index := FirmwareIndex(s, s.operation.target);
    var t := Confirmed(s);
    assert Names(t.bindings[index], t.operation.target);
    assert Delivers(s.operation, t.bindings[index]);
  }

  lemma ConfirmWorks(g: Geometry, h: Hash, w: World, s: State)
    requires Holds(g, h, w, s) && s.sequence < U32_MAX && s.phase == HEALTH_VERIFIED
    requires CandidateCheck(g, h, w.flash, s.operation) == Ok
    ensures FirmwareIndex(s, s.operation.target) >= 0
    ensures DecideConfirm(g, h, w, s.sequence, s.operation.target, s.operation.trialBoot) == Commit(Confirmed(s))
    ensures Sound(g, h, w.flash, Confirmed(s))
  {
    ConfirmedIsValid(g, s);
  }

  function PrepareAndTry(g: Geometry, h: Hash, w: World, n: U32, firmware: Digest, boot: Id): World
    requires n < U32_MAX
  {
    Apply(g, h, Apply(g, h, w, Prepare(n, true)), BeginTrial(n + 1, firmware, boot))
  }

  function HealAndConfirm(g: Geometry, h: Hash, w: World, n: U32, firmware: Digest, boot: Id): World
    requires n < U32_MAX
  {
    Apply(g, h, Apply(g, h, w, MarkHealthy(n, boot)), Confirm(n + 1, firmware, boot))
  }

  /** Everything after the reservation: a fault-free write of content, then four calls. */
  function Complete(
    g: Geometry, h: Hash, w: World, n: U32, f: FirmwareSet, content: seq<Byte>, boot: Id): World
    requires n <= U32_MAX - 4 && GeometryValid(g) && |w.flash| >= PartitionEnd(g)
  {
    var l := Load(w.record);
    if l.Missing? || l.state.operation.slot >= SLOT_COUNT
      || |content| > g.slots[l.state.operation.slot].size then w
    else
      assert Placed(g, g.slots[l.state.operation.slot]);
      var written := World(w.record, Programmed(w.flash, g.slots[l.state.operation.slot], content));
      var tried := PrepareAndTry(g, h, written, n, f.running, boot);
      HealAndConfirm(g, h, tried, n + 2, f.running, boot)
  }

  /** The five calls of one installation. */
  function Install(
    g: Geometry, h: Hash, w: World, n: U32, f: FirmwareSet, o: Operation, content: seq<Byte>, boot: Id): World
    requires n <= U32_MAX - 5 && GeometryValid(g) && |w.flash| >= PartitionEnd(g)
  {
    Complete(g, h, Apply(g, h, w, Reserve(n, f, o)), n + 1, f, content, boot)
  }

  /** The outcome of an installation: confirmed, and the running firmware bound to exactly this package. */
  predicate InstalledAs(t: State, f: FirmwareSet, o: Operation) {
    && t.phase == CONFIRMED && SameRequest(t.operation, o) && t.operation.id == o.id
    && FirmwareIndex(t, f.running) >= 0
    && Delivers(t.operation, t.bindings[FirmwareIndex(t, f.running)])
  }

  /** A world whose record says so. */
  predicate Installs(w: World, f: FirmwareSet, o: Operation) {
    w.record.Holding? && InstalledAs(w.record.state, f, o)
  }

  lemma PrepareAndTryWorks(g: Geometry, h: Hash, w: World, s: State, boot: Id)
    requires Holds(g, h, w, s) && s.sequence <= U32_MAX - 2 && s.phase == WRITING && !AllZero(boot)
    requires CandidateCheck(g, h, w.flash, s.operation) == Ok
    ensures var tried := PrepareAndTry(g, h, w, s.sequence, s.operation.target, boot);
            Holds(g, h, tried, Tried(Next(s, PREPARED), boot)) && tried.flash == w.flash
  {
    PrepareWorks(g, h, w, s);
    var p := Next(s, PREPARED);
    ApplyCommits(g, h, w, Prepare(s.sequence, true), p);
    var prepared := Apply(g, h, w, Prepare(s.sequence, true));
    BeginTrialWorks(g, h, prepared, p, boot);
    ApplyCommits(g, h, prepared, BeginTrial(s.sequence + 1, s.operation.target, boot), Tried(p, boot));
  }

  lemma HealAndConfirmWorks(g: Geometry, h: Hash, w: World, s: State)
    requires Holds(g, h, w, s) && s.sequence <= U32_MAX - 2 && s.phase == TRIAL_STARTED
    requires CandidateCheck(g, h, w.flash, s.operation) == Ok
    ensures FirmwareIndex(Next(s, HEALTH_VERIFIED), s.operation.target) >= 0
    ensures var done := HealAndConfirm(g, h, w, s.sequence, s.operation.target, s.operation.trialBoot);
            Holds(g, h, done, Confirmed(Next(s, HEALTH_VERIFIED)))
  {
    MarkHealthyWorks(g, h, w, s);
    var t := Next(s, HEALTH_VERIFIED);
    var call := MarkHealthy(s.sequence, s.operation.trialBoot);
    ApplyCommits(g, h, w, call, t);
    var healthy := Apply(g, h, w, call);
    ConfirmWorks(g, h, healthy, t);
    ApplyCommits(g, h, healthy, Confirm(s.sequence + 1, s.operation.target, s.operation.trialBoot), Confirmed(t));
  }

  /** From a written slot, the remaining four calls lead to a confirmed package. */
  lemma TrialWorks(g: Geometry, h: Hash, w: World, s: State, f: FirmwareSet, o: Operation, boot: Id)
    requires Holds(g, h, w, s) && s.sequence <= U32_MAX - 4 && s.phase == WRITING && !AllZero(boot)
    requires CandidateCheck(g, h, w.flash, s.operation) == Ok
    requires s.operation.target == f.running && SameRequest(s.operation, o) && s.operation.id == o.id
    ensures var tried := PrepareAndTry(g, h, w, s.sequence, f.running, boot);
            Installs(HealAndConfirm(g, h, tried, s.sequence + 2, f.running, boot), f, o)
  {
    PrepareAndTryWorks(g, h, w, s, boot);
    var t := Tried(Next(s, PREPARED), boot);
    HealAndConfirmWorks(g, h, PrepareAndTry(g, h, w, s.sequence, f.running, boot), t);
    NextIsValid(g, t, HEALTH_VERIFIED);
    ConfirmedIsValid(g, Next(t, HEALTH_VERIFIED));
  }

  lemma CompleteWorks(
    g: Geometry, h: Hash, w: World, s: State, f: FirmwareSet, o: Operation, content: seq<Byte>, boot: Id)
    requires Holds(g, h, w, s) && s.sequence <= U32_MAX - 4 && s.phase == WRITING && !AllZero(boot)
    requires s.operation.target == f.running && SameRequest(s.operation, o) && s.operation.id == o.id
    requires |content| == o.packageSize && h(content) == o.package
    ensures Installs(Complete(g, h, w, s.sequence, f, content, boot), f, o)
  {
    WriteWorks(g, h, w.flash, s, content);
    var after := Programmed(w.flash, g.slots[s.operation.slot], content);
    TrialWorks(g, h, World(w.record, after), s, f, o, boot);
  }

  lemma ReserveLeads(g: Geometry, h: Hash, w: World, s: State, f: FirmwareSet, o: Operation) returns (t: State)
    requires Holds(g, h, w, s) && s.sequence < U32_MAX && !Pending(s.phase) && Acceptable(g, s, f, o)
    ensures Holds(g, h, Apply(g, h, w, Reserve(s.sequence, f, o)), t)
    ensures t.sequence == s.sequence + 1 && t.phase == WRITING
    ensures t.operation.target == f.running && SameRequest(t.operation, o) && t.operation.id == o.id
  {
    t := Reserved(g, s, o);
    ReserveWorks(g, h, w, s, f, o);
    ApplyCommits(g, h, w, Reserve(s.sequence, f, o), t);
  }

  /** An installation is the reservation and then the rest. */
  lemma InstallLeads(
    g: Geometry, h: Hash, w: World, s: State, f: FirmwareSet, o: Operation, content: seq<Byte>, boot: Id)
    returns (t: State, reserved: World)
    requires Holds(g, h, w, s) && s.sequence <= U32_MAX - 5 && !Pending(s.phase) && Acceptable(g, s, f, o)
    ensures Holds(g, h, reserved, t) && t.sequence == s.sequence + 1 && t.phase == WRITING
    ensures t.operation.target == f.running && SameRequest(t.operation, o) && t.operation.id == o.id
    ensures Install(g, h, w, s.sequence, f, o, content, boot) ==
            Complete(g, h, reserved, s.sequence + 1, f, content, boot)
  {
    t := ReserveLeads(g, h, w, s, f, o);
    reserved := Apply(g, h, w, Reserve(s.sequence, f, o));
  }

  lemma InstallWorks(
    g: Geometry, h: Hash, w: World, s: State, f: FirmwareSet, o: Operation, content: seq<Byte>, boot: Id)
    requires Holds(g, h, w, s) && s.sequence <= U32_MAX - 5 && !Pending(s.phase)
    requires Acceptable(g, s, f, o) && |content| == o.packageSize && h(content) == o.package && !AllZero(boot)
    ensures Installs(Install(g, h, w, s.sequence, f, o, content, boot), f, o)
  {
    var t, reserved := InstallLeads(g, h, w, s, f, o, content, boot);
    CompleteWorks(g, h, reserved, t, f, o, content, boot);
  }

  /**
   From any sound state, also one whose pending candidate is damaged, at most six
   fault-free calls confirm any acceptable package.
   */
  lemma SixCallsSuffice(
    g: Geometry, h: Hash, w: World, s: State, stopped: bool,
    f: FirmwareSet, o: Operation, content: seq<Byte>, boot: Id)
    requires Holds(g, h, w, s) && s.sequence <= U32_MAX - 6
    requires Pending(s.phase) ==> Cancellable(s, boot, stopped)
    requires Acceptable(g, s, f, o) && |content| == o.packageSize && h(content) == o.package && !AllZero(boot)
    ensures var n := if Pending(s.phase) then s.sequence + 1 else s.sequence;
            var idle := if Pending(s.phase) then Apply(g, h, w, Abandon(s.sequence, boot, stopped)) else w;
            Installs(Install(g, h, idle, n, f, o, content, boot), f, o)
  {
    if Pending(s.phase) {
      AbandonWorks(g, h, w, s, boot, stopped);
      var t := Next(s, ABORTED);
      var call := Abandon(s.sequence, boot, stopped);
      ApplyCommits(g, h, w, call, t);
      SelectionIgnoresPhase(g, s, t, o.packageSize);
      InstallWorks(g, h, Apply(g, h, w, call), t, f, o, content, boot);
    } else {
      InstallWorks(g, h, w, s, f, o, content, boot);
    }
  }

  lemma SelectionIgnoresPhase(g: Geometry, s: State, t: State, size: U32)
    requires s.bindings == t.bindings
    ensures SelectedSlot(s, g, size) == SelectedSlot(t, g, size)
  {
    assert forall slot: nat | slot < SLOT_COUNT :: Referenced(s, slot) <==> Referenced(t, slot);
  }

  // ------------------------------------------------------------------ refusals

  lemma GoodReferences(g: Geometry, h: Hash, flash: seq<Byte>, s: State, checkCandidate: bool)
    requires Good(g, h, flash, s)
    ensures References(g, h, flash, s, checkCandidate) == Ok
  {
  }

  lemma ReserveIsInvalidOnlyWhenExhausted(g: Geometry, h: Hash, w: World, expected: U32, f: FirmwareSet, o: Operation)
    requires w.record.Holding? && Good(g, h, w.flash, w.record.state) && RequestValid(f, o)
    ensures DecideReserve(g, h, w, expected, f, o) == Refuse(Invalid) ==> w.record.state.sequence == U32_MAX
  {
    var s := w.record.state;
    GoodReferences(g, h, w.flash, s, true);
    if s.sequence < U32_MAX && !Pending(s.phase) && Acceptable(g, s, f, o) {
      ReservedIsValid(g, s, f, o);
    }
  }

  lemma PrepareIsInvalidOnlyWhenExhausted(g: Geometry, h: Hash, w: World, expected: U32, accepted: bool)
    requires w.record.Holding? && Good(g, h, w.flash, w.record.state)
    ensures DecidePrepare(g, h, w, expected, accepted) == Refuse(Invalid) ==> w.record.state.sequence == U32_MAX
  {
    var s := w.record.state;
    GoodReferences(g, h, w.flash, s, false);
    if s.sequence < U32_MAX && s.phase == WRITING {
      NextIsValid(g, s, PREPARED);
      AdvanceCommits(g, s, s.(phase := PREPARED));
    }
  }

  lemma BeginTrialIsInvalidOnlyWhenExhausted(g: Geometry, h: Hash, w: World, expected: U32, running: Digest, boot: Id)
    requires w.record.Holding? && Good(g, h, w.flash, w.record.state) && !AllZero(boot)
    ensures DecideBeginTrial(g, h, w, expected, running, boot) == Refuse(Invalid) ==> w.record.state.sequence == U32_MAX
  {
    var s := w.record.state;
    GoodReferences(g, h, w.flash, s, true);
    if s.sequence < U32_MAX && s.phase == PREPARED {
      TriedIsValid(g, s, boot);
    }
  }

  lemma MarkHealthyIsInvalidOnlyWhenExhausted(g: Geometry, h: Hash, w: World, expected: U32, boot: Id)
    requires w.record.Holding? && Good(g, h, w.flash, w.record.state)
    ensures DecideMarkHealthy(g, h, w, expected, boot) == Refuse(Invalid) ==> w.record.state.sequence == U32_MAX
  {
    var s := w.record.state;
    GoodReferences(g, h, w.flash, s, true);
    if s.sequence < U32_MAX && s.phase == TRIAL_STARTED {
      NextIsValid(g, s, HEALTH_VERIFIED);
      AdvanceCommits(g, s, s.(phase := HEALTH_VERIFIED));
    }
  }

  lemma ConfirmIsInvalidOnlyWhenExhausted(g: Geometry, h: Hash, w: World, expected: U32, running: Digest, boot: Id)
    requires w.record.Holding? && Good(g, h, w.flash, w.record.state)
    ensures DecideConfirm(g, h, w, expected, running, boot) == Refuse(Invalid) ==> w.record.state.sequence == U32_MAX
  {
    var s := w.record.state;
    GoodReferences(g, h, w.flash, s, true);
    if s.sequence < U32_MAX && s.phase == HEALTH_VERIFIED {
      ConfirmedIsValid(g, s);
    }
  }

  lemma AbandonIsInvalidOnlyWhenExhausted(g: Geometry, h: Hash, w: World, expected: U32, boot: Id, stopped: bool)
    requires w.record.Holding? && Good(g, h, w.flash, w.record.state)
    ensures DecideAbandon(g, h, w, expected, boot, stopped) == Refuse(Invalid) ==> w.record.state.sequence == U32_MAX
  {
    var s := w.record.state;
    GoodReferences(g, h, w.flash, s, false);
    if s.sequence < U32_MAX && Pending(s.phase) {
      NextIsValid(g, s, ABORTED);
      AdvanceCommits(g, s, s.(phase := ABORTED));
    }
  }

  /** On the record of any run, a well-formed call is refused as invalid only when the sequence numbers are used up. */
  lemma InvalidOnlyWhenExhausted(g: Geometry, h: Hash, w: World, call: Call)
    requires WorldGood(g, h, w) && w.record.Holding? && ArgumentsValid(g, call)
    ensures Decide(g, h, w, call) == Refuse(Invalid) ==> w.record.state.sequence == U32_MAX
  {
    match call
    case Initialize(_, _) =>
    case Reserve(expected, f, o) => ReserveIsInvalidOnlyWhenExhausted(g, h, w, expected, f, o);
    case Prepare(expected, accepted) => PrepareIsInvalidOnlyWhenExhausted(g, h, w, expected, accepted);
    case BeginTrial(expected, running, boot) => BeginTrialIsInvalidOnlyWhenExhausted(g, h, w, expected, running, boot);
    case MarkHealthy(expected, boot) => MarkHealthyIsInvalidOnlyWhenExhausted(g, h, w, expected, boot);
    case Confirm(expected, running, boot) => ConfirmIsInvalidOnlyWhenExhausted(g, h, w, expected, running, boot);
    case Abandon(expected, boot, stopped) => AbandonIsInvalidOnlyWhenExhausted(g, h, w, expected, boot, stopped);
  }
}
