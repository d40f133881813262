/**
 What each operation of the package store decides, as a function of the durable record
 and the Flash bytes, and what every sequence of such decisions keeps, whatever is lost
 or damaged in between.
 */
module SlotProtocol {
  import opened Octets
  import opened SlotState

  /** The durable record as a reader sees it. */
  datatype Record = Absent | Unreadable | Holding(state: State)

  /** Everything that survives a power loss. */
  datatype World = World(record: Record, flash: seq<Byte>)

  datatype Call =
    | Initialize(firmware: FirmwareSet, bindings: Bindings)
    | Reserve(expected: U32, firmware: FirmwareSet, operation: Operation)
    | Prepare(expected: U32, accepted: bool)
    | BeginTrial(expected: U32, running: Digest, boot: Id)
    | MarkHealthy(expected: U32, boot: Id)
    | Confirm(expected: U32, running: Digest, boot: Id)
    | Abandon(expected: U32, boot: Id, stopped: bool)

  datatype Decision = Refuse(result: Result) | Commit(next: State)

  datatype Loaded = Loaded(state: State) | Missing(result: Result)

  // ------------------------------------------------------------------ decisions

  function Load(record: Record): Loaded {
    match record
    case Absent => Missing(Empty)
    case Unreadable => Missing(Invalid)
    case Holding(s) => Loaded(s)
  }

  function Begin(record: Record, expected: U32): Loaded {
    if record.Holding? && record.state.sequence != expected then Missing(Conflict) else Load(record)
  }

  /** Reading back `size` bytes of a slot and comparing their digest. */
  function HashCheck(g: Geometry, h: Hash, flash: seq<Byte>, slot: Byte, size: U32, digest: Digest): Result {
    if slot >= SLOT_COUNT || size == 0 || size > g.slots[slot].size then Invalid
    else if g.slots[slot].offset + size > |flash| then IoFailed
    else if h(flash[g.slots[slot].offset..g.slots[slot].offset + size]) == digest then Ok
    else Untrusted
  }

  function BindingCheck(g: Geometry, h: Hash, flash: seq<Byte>, b: Binding): Result {
    if b.packagePresent then HashCheck(g, h, flash, b.slot, b.packageSize, b.package) else Ok
  }

  function CandidateCheck(g: Geometry, h: Hash, flash: seq<Byte>, o: Operation): Result {
    HashCheck(g, h, flash, o.slot, o.packageSize, o.package)
  }

  predicate HasCandidate(phase: Byte) {
    PREPARED <= phase <= HEALTH_VERIFIED
  }

  function References(g: Geometry, h: Hash, flash: seq<Byte>, s: State, checkCandidate: bool): Result {
    var first := BindingCheck(g, h, flash, s.bindings[0]);
    var second := BindingCheck(g, h, flash, s.bindings[1]);
    if first != Ok then first
    else if second != Ok then second
    else if checkCandidate && HasCandidate(s.phase) then CandidateCheck(g, h, flash, s.operation)
    else Ok
  }

  /** A compare-and-set: the next record carries the next sequence number, or nothing changes. */
  function Advance(g: Geometry, before: State, next: State): Decision {
    if before.sequence == U32_MAX then Refuse(Invalid)
    else
      var n := next.(sequence := before.sequence + 1);
      if StateValid(n, g) then Commit(n) else Refuse(Invalid)
  }

  function DecideInitialize(g: Geometry, h: Hash, w: World, f: FirmwareSet, bindings: Bindings): Decision {
    if !GeometryValid(g) || !FirmwareSetValid(f) then Refuse(Invalid)
    else
      var l := Load(w.record);
      var initial := State(1, bindings, IDLE, NO_OPERATION);
      if l.Loaded? then Refuse(Conflict)
      else if l.result != Empty then Refuse(l.result)
      else if !StateValid(initial, g) || !FirmwareSetMatches(initial, f) then Refuse(Invalid)
      else
        var refs := References(g, h, w.flash, initial, false);
        if refs != Ok then Refuse(refs) else Commit(initial)
  }

  predicate RequestValid(f: FirmwareSet, o: Operation) {
    && FirmwareSetValid(f) && !AllZero(o.id) && !AllZero(o.package) && o.target == f.running
    && o.slot == 0 && o.packageSize > 0 && o.guestAbi > 0 && o.dataSchema > 0 && AllZero(o.trialBoot)
  }

  predicate SameRequest(a: Operation, b: Operation) {
    && a.target == b.target && a.package == b.package && a.packageSize == b.packageSize
    && a.guestAbi == b.guestAbi && a.dataSchema == b.dataSchema
  }

  /** The running firmware's package, if any, keeps its data schema. */
  predicate SchemaAllows(s: State, firmware: Digest, schema: U32) {
    var index := FirmwareIndex(s, firmware);
    index >= 0 && (s.bindings[index].packagePresent ==> s.bindings[index].dataSchema == schema)
  }

  /** What a request meets that the firmware may make: no other operation, and a slot. */
  function DecideFresh(g: Geometry, s: State, o: Operation): Decision {
    if s.phase != IDLE && s.operation.id == o.id then
      Refuse(if SameRequest(s.operation, o) then Busy else Conflict)
    else if Pending(s.phase) then Refuse(Busy)
    else
      var selected := SelectedSlot(s, g, o.packageSize);
      if selected == SLOT_COUNT then Refuse(NoSpace)
      else Advance(g, s, s.(phase := WRITING, operation := o.(slot := selected)))
  }

  /** What a well-formed request meets in state s. */
  function DecideRequest(g: Geometry, h: Hash, flash: seq<Byte>, s: State, f: FirmwareSet, o: Operation): Decision {
    if !FirmwareSetMatches(s, f) || !SchemaAllows(s, f.running, o.dataSchema) then Refuse(Conflict)
    else
      var refs := References(g, h, flash, s, true);
      if refs != Ok then Refuse(refs) else DecideFresh(g, s, o)
  }

  function DecideReserve(
    g: Geometry, h: Hash, w: World, expected: U32, f: FirmwareSet, o: Operation): Decision
  {
    if !GeometryValid(g) || !RequestValid(f, o) then Refuse(Invalid)
    else
      var l := Begin(w.record, expected);
      if l.Missing? then Refuse(l.result) else DecideRequest(g, h, w.flash, l.state, f, o)
  }

  /** The state write_and_prepare works on once it may erase. */
  function PrepareGate(g: Geometry, h: Hash, w: World, expected: U32): Loaded {
    if !GeometryValid(g) then Missing(Invalid)
    else
      var l := Begin(w.record, expected);
      if l.Missing? then l
      else if l.state.phase != WRITING then Missing(Conflict)
      else
        var refs := References(g, h, w.flash, l.state, false);
        if refs != Ok then Missing(refs) else l
  }

  /** What happens to the reservation once the slot has been written. */
  function DecidePrepared(g: Geometry, h: Hash, flash: seq<Byte>, s: State, accepted: bool): Decision {
    var hash := CandidateCheck(g, h, flash, s.operation);
    if hash != Ok then Refuse(hash)
    else if !accepted then Refuse(Untrusted)
    else Advance(g, s, s.(phase := PREPARED))
  }

  function DecidePrepare(g: Geometry, h: Hash, w: World, expected: U32, accepted: bool): Decision {
    var l := PrepareGate(g, h, w, expected);
    if l.Missing? then Refuse(l.result) else DecidePrepared(g, h, w.flash, l.state, accepted)
  }

  function DecideBeginTrial(
    g: Geometry, h: Hash, w: World, expected: U32, running: Digest, boot: Id): Decision
  {
    if !GeometryValid(g) || AllZero(boot) then Refuse(Invalid)
    else
      var l := Begin(w.record, expected);
      if l.Missing? then Refuse(l.result)
      else if l.state.phase != PREPARED || l.state.operation.target != running then Refuse(Conflict)
      else
        var refs := References(g, h, w.flash, l.state, true);
        if refs != Ok then Refuse(refs)
        else Advance(g, l.state, l.state.(phase := TRIAL_STARTED,
                                          operation := l.state.operation.(trialBoot := boot)))
  }

  function DecideMarkHealthy(g: Geometry, h: Hash, w: World, expected: U32, boot: Id): Decision {
    if !GeometryValid(g) then Refuse(Invalid)
    else
      var l := Begin(w.record, expected);
      if l.Missing? then Refuse(l.result)
      else if l.state.phase != TRIAL_STARTED || l.state.operation.trialBoot != boot then Refuse(Conflict)
      else
        var refs := References(g, h, w.flash, l.state, true);
        if refs != Ok then Refuse(refs)
        else Advance(g, l.state, l.state.(phase := HEALTH_VERIFIED))
  }

  function Deliver(b: Binding, o: Operation): Binding {
    b.(packagePresent := true, slot := o.slot, packageSize := o.packageSize, package := o.package,
       guestAbi := o.guestAbi, dataSchema := o.dataSchema)
  }

  /** What a request to confirm meets in state s. */
  function DecideDelivery(g: Geometry, h: Hash, flash: seq<Byte>, s: State, running: Digest, boot: Id): Decision {
    var index := FirmwareIndex(s, running);
    if s.phase != HEALTH_VERIFIED || index < 0 || s.operation.target != running
      || s.operation.trialBoot != boot then Refuse(Conflict)
    else
      var refs := References(g, h, flash, s, true);
      if refs != Ok then Refuse(refs)
      else Advance(g, s, s.(phase := CONFIRMED,
                            bindings := s.bindings[index := Deliver(s.bindings[index], s.operation)]))
  }

  function DecideConfirm(
    g: Geometry, h: Hash, w: World, expected: U32, running: Digest, boot: Id): Decision
  {
    if !GeometryValid(g) then Refuse(Invalid)
    else
      var l := Begin(w.record, expected);
      if l.Missing? then Refuse(l.result) else DecideDelivery(g, h, w.flash, l.state, running, boot)
  }

  function DecideAbandon(g: Geometry, h: Hash, w: World, expected: U32, boot: Id, stopped: bool): Decision {
    if !GeometryValid(g) then Refuse(Invalid)
    else
      var l := Begin(w.record, expected);
      if l.Missing? then Refuse(l.result)
      else
        var s := l.state;
        if !Pending(s.phase) then Refuse(Conflict)
        else if s.phase >= TRIAL_STARTED && s.operation.trialBoot == boot && !stopped then Refuse(Busy)
        else
          var refs := References(g, h, w.flash, s, false);
          if refs != Ok then Refuse(refs) else Advance(g, s, s.(phase := ABORTED))
  }

  function Decide(g: Geometry, h: Hash, w: World, call: Call): Decision {
    match call
    case Initialize(f, bindings) => DecideInitialize(g, h, w, f, bindings)
    case Reserve(expected, f, o) => DecideReserve(g, h, w, expected, f, o)
    case Prepare(expected, accepted) => DecidePrepare(g, h, w, expected, accepted)
    case BeginTrial(expected, running, boot) => DecideBeginTrial(g, h, w, expected, running, boot)
    case MarkHealthy(expected, boot) => DecideMarkHealthy(g, h, w, expected, boot)
    case Confirm(expected, running, boot) => DecideConfirm(g, h, w, expected, running, boot)
    case Abandon(expected, boot, stopped) => DecideAbandon(g, h, w, expected, boot, stopped)
  }

  datatype BootDecision = Blocked | RunConfirmed | RecoverConfirmed | RecoverConfirmedCandidateInvalid

  datatype Boot = Boot(result: Result, decision: BootDecision, state: Option<State>)

  function BootFrom(g: Geometry, h: Hash, flash: seq<Byte>, s: State, f: FirmwareSet): Boot {
    if !FirmwareSetMatches(s, f) then Boot(Conflict, Blocked, None)
    else
      var refs := References(g, h, flash, s, false);
      if refs != Ok then Boot(refs, Blocked, None)
      else
        var candidate := References(g, h, flash, s, true);
        if candidate != Ok then Boot(candidate, RecoverConfirmedCandidateInvalid, Some(s))
        else Boot(Ok, if Pending(s.phase) then RecoverConfirmed else RunConfirmed, Some(s))
  }

  /** The start-up comparison of record, firmware and Flash. */
  function DecideBoot(g: Geometry, h: Hash, w: World, f: FirmwareSet): Boot {
    if !GeometryValid(g) || !FirmwareSetValid(f) then Boot(Invalid, Blocked, None)
    else
      var l := Load(w.record);
      if l.Missing? then Boot(l.result, Blocked, None) else BootFrom(g, h, w.flash, l.state, f)
  }

  // ------------------------------------------------------------------ steps

  predicate AgreeOutside(before: seq<Byte>, after: seq<Byte>, r: Region) {
    && |before| == |after|
    && forall i | 0 <= i < |before| && !(r.offset <= i < End(r)) :: before[i] == after[i]
  }

  datatype Step = Stay | Damage | Do(call: Call)

  /** One durable change. Damage is arbitrary, but only inside a slot reserved for writing. */
  predicate StepOk(g: Geometry, h: Hash, w: World, step: Step, w': World) {
    match step
    case Stay => w' == w
    case Damage =>
      && GeometryValid(g) && w.record.Holding? && StateValid(w.record.state, g)
      && w.record.state.phase == WRITING && w'.record == w.record
      && AgreeOutside(w.flash, w'.flash, g.slots[w.record.state.operation.slot])
    case Do(call) =>
      var d := Decide(g, h, w, call);
      d.Commit? && w' == World(Holding(d.next), w.flash)
  }

  /** A finite run of the device, newest step last; a crash is simply where one ends or goes on. */
  datatype History = Blank(flash: seq<Byte>) | Then(past: History, step: Step, world: World)

  function Now(run: History): World {
    match run
    case Blank(flash) => World(Absent, flash)
    case Then(_, _, world) => world
  }

  predicate Run(g: Geometry, h: Hash, run: History) {
    match run
    case Blank(_) => true
    case Then(past, step, world) => Run(g, h, past) && StepOk(g, h, Now(past), step, world)
  }

  // ------------------------------------------------------------------ the invariant

  predicate BindingsIntact(g: Geometry, h: Hash, flash: seq<Byte>, s: State) {
    && BindingCheck(g, h, flash, s.bindings[0]) == Ok
    && BindingCheck(g, h, flash, s.bindings[1]) == Ok
  }

  predicate Good(g: Geometry, h: Hash, flash: seq<Byte>, s: State) {
    && GeometryValid(g) && StateValid(s, g)
    && BindingsIntact(g, h, flash, s)
    && (HasCandidate(s.phase) ==> CandidateCheck(g, h, flash, s.operation) == Ok)
    && (Pending(s.phase) ==> SchemaAllows(s, s.operation.target, s.operation.dataSchema))
  }

  /** Strictly stronger than the code's own record check. */
  predicate WorldGood(g: Geometry, h: Hash, w: World) {
    match w.record
    case Absent => true
    case Unreadable => false
    case Holding(s) => Good(g, h, w.flash, s)
  }

  lemma HashCheckFrame(
    g: Geometry, h: Hash, before: seq<Byte>, after: seq<Byte>, damaged: nat, slot: Byte, size: U32, digest: Digest)
    requires GeometryValid(g) && damaged < SLOT_COUNT && slot != damaged
    requires AgreeOutside(before, after, g.slots[damaged])
    ensures HashCheck(g, h, before, slot, size, digest) == HashCheck(g, h, after, slot, size, digest)
  {
    if slot < SLOT_COUNT && size <= g.slots[slot].size && g.slots[slot].offset + size <= |before| {
      assert Disjoint(g.slots[slot], g.slots[damaged]) by {
        if slot < damaged {
          assert Disjoint(g.slots[damaged], g.slots[slot]);
        }
      }
      var r := g.slots[slot];
      assert before[r.offset..r.offset + size] == after[r.offset..r.offset + size];
    }
  }

  lemma BindingCheckFrame(
    g: Geometry, h: Hash, before: seq<Byte>, after: seq<Byte>, damaged: nat, b: Binding)
    requires GeometryValid(g) && damaged < SLOT_COUNT && !(b.packagePresent && b.slot == damaged)
    requires AgreeOutside(before, after, g.slots[damaged])
    ensures BindingCheck(g, h, before, b) == BindingCheck(g, h, after, b)
  {
    if b.packagePresent {
      HashCheckFrame(g, h, before, after, damaged, b.slot, b.packageSize, b.package);
    }
  }

  /** A reserved slot holds no confirmed package, so losing its bytes loses nothing. */
  lemma DamageKeepsGood(g: Geometry, h: Hash, before: seq<Byte>, after: seq<Byte>, s: State)
    requires Good(g, h, before, s) && s.phase == WRITING
    requires AgreeOutside(before, after, g.slots[s.operation.slot])
    ensures Good(g, h, after, s)
  {
    BindingCheckFrame(g, h, before, after, s.operation.slot, s.bindings[0]);
    BindingCheckFrame(g, h, before, after, s.operation.slot, s.bindings[1]);
  }

  // ------------------------------------------------------------------ one commit

  lemma InitializeKeepsGood(g: Geometry, h: Hash, w: World, f: FirmwareSet, bindings: Bindings)
    requires DecideInitialize(g, h, w, f, bindings).Commit?
    ensures Good(g, h, w.flash, DecideInitialize(g, h, w, f, bindings).next)
  {
  }

  lemma ReserveKeepsGood(g: Geometry, h: Hash, w: World, expected: U32, f: FirmwareSet, o: Operation)
    requires DecideReserve(g, h, w, expected, f, o).Commit?
    ensures Good(g, h, w.flash, DecideReserve(g, h, w, expected, f, o).next)
  {
  }

  lemma PrepareKeepsGood(g: Geometry, h: Hash, w: World, expected: U32, accepted: bool)
    requires WorldGood(g, h, w) && DecidePrepare(g, h, w, expected, accepted).Commit?
    ensures Good(g, h, w.flash, DecidePrepare(g, h, w, expected, accepted).next)
  {
  }

  lemma BeginTrialKeepsGood(g: Geometry, h: Hash, w: World, expected: U32, running: Digest, boot: Id)
    requires WorldGood(g, h, w) && DecideBeginTrial(g, h, w, expected, running, boot).Commit?
    ensures Good(g, h, w.flash, DecideBeginTrial(g, h, w, expected, running, boot).next)
  {
  }

  lemma MarkHealthyKeepsGood(g: Geometry, h: Hash, w: World, expected: U32, boot: Id)
    requires WorldGood(g, h, w) && DecideMarkHealthy(g, h, w, expected, boot).Commit?
    ensures Good(g, h, w.flash, DecideMarkHealthy(g, h, w, expected, boot).next)
  {
  }

  lemma ConfirmKeepsGood(g: Geometry, h: Hash, w: World, expected: U32, running: Digest, boot: Id)
    requires WorldGood(g, h, w) && DecideConfirm(g, h, w, expected, running, boot).Commit?
    ensures Good(g, h, w.flash, DecideConfirm(g, h, w, expected, running, boot).next)
  {
  }

  lemma AbandonKeepsGood(g: Geometry, h: Hash, w: World, expected: U32, boot: Id, stopped: bool)
    requires WorldGood(g, h, w) && DecideAbandon(g, h, w, expected, boot, stopped).Commit?
    ensures Good(g, h, w.flash, DecideAbandon(g, h, w, expected, boot, stopped).next)
  {
  }

  lemma CommitKeepsGood(g: Geometry, h: Hash, w: World, call: Call)
    requires WorldGood(g, h, w) && Decide(g, h, w, call).Commit?
    ensures Good(g, h, w.flash, Decide(g, h, w, call).next)
  {
    match call
    case Initialize(f, bindings) => InitializeKeepsGood(g, h, w, f, bindings);
    case Reserve(expected, f, o) => ReserveKeepsGood(g, h, w, expected, f, o);
    case Prepare(expected, accepted) => PrepareKeepsGood(g, h, w, expected, accepted);
    case BeginTrial(expected, running, boot) => BeginTrialKeepsGood(g, h, w, expected, running, boot);
    case MarkHealthy(expected, boot) => MarkHealthyKeepsGood(g, h, w, expected, boot);
    case Confirm(expected, running, boot) => ConfirmKeepsGood(g, h, w, expected, running, boot);
    case Abandon(expected, boot, stopped) => AbandonKeepsGood(g, h, w, expected, boot, stopped);
  }

  lemma StepKeepsGood(g: Geometry, h: Hash, w: World, step: Step, w': World)
    requires WorldGood(g, h, w) && StepOk(g, h, w, step, w')
    ensures WorldGood(g, h, w')
  {
    match step
    case Stay =>
    case Damage =>
      DamageKeepsGood(g, h, w.flash, w'.flash, w.record.state);
    case Do(call) =>
      CommitKeepsGood(g, h, w, call);
  }

  /** In every state of every run, each confirmed package and each prepared candidate is intact. */
  lemma {:induction false} RunStaysGood(g: Geometry, h: Hash, run: History)
    requires Run(g, h, run)
    ensures WorldGood(g, h, Now(run))
  {
    match run
    case Blank(_) =>
    case Then(past, step, world) =>
      RunStaysGood(g, h, past);
      StepKeepsGood(g, h, Now(past), step, world);
  }
}
