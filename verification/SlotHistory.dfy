/**
 Properties of whole runs of the package store: sequence numbers, firmware and schema
 stability, the origin of every confirmed package, and the decision at the next boot.
 */
module SlotHistory {
  import opened Octets
  import opened SlotState
  import opened SlotProtocol

  /** One durable commit: the call that made it and the world it was decided in. */
  datatype Entry = Entry(call: Call, at: World)

  function Log(run: History): seq<Entry> {
    match run
    case Blank(_) => []
    case Then(past, step, _) => if step.Do? then Log(past) + [Entry(step.call, Now(past))] else Log(past)
  }

  predicate Extends(run: History, past: History) {
    run == past || (run.Then? && Extends(run.past, past))
  }

  predicate HasRecord(run: History) {
    Now(run).record.Holding?
  }

  function Current(g: Geometry, h: Hash, run: History): (s: State)
    requires Run(g, h, run) && HasRecord(run)
    ensures Good(g, h, Now(run).flash, s)
  {
    RunStaysGood(g, h, run);
    Now(run).record.state
  }

  lemma {:induction false} ExtendsKeepsRun(g: Geometry, h: Hash, run: History, past: History)
    requires Run(g, h, run) && Extends(run, past)
    ensures Run(g, h, past)
  {
    if run != past {
      ExtendsKeepsRun(g, h, run.past, past);
    }
  }

  // ------------------------------------------------------------------ the effect of one commit

  function Expected(call: Call): U32
    requires !call.Initialize?
  {
    call.expected
  }

  /** Only an initialize starts from no record, and every other commit expected the current sequence. */
  lemma CommitSequence(g: Geometry, h: Hash, w: World, call: Call)
    requires Decide(g, h, w, call).Commit?
    ensures call.Initialize? <==> w.record.Absent?
    ensures call.Initialize? ==> Decide(g, h, w, call).next.sequence == 1
    ensures !call.Initialize? ==>
              && w.record.Holding? && w.record.state.sequence == Expected(call)
              && Decide(g, h, w, call).next.sequence == Expected(call) + 1
  {
  }

  /** The only commit that rewrites a binding is a confirm, and it rewrites the target's alone. */
  lemma CommitBindings(g: Geometry, h: Hash, w: World, call: Call)
    requires Decide(g, h, w, call).Commit? && !call.Initialize?
    ensures w.record.Holding?
    ensures var s, next := w.record.state, Decide(g, h, w, call).next;
            var index := FirmwareIndex(s, s.operation.target);
            if call.Confirm? then
              && 0 <= index && s.operation.target == call.running
              && next.bindings == s.bindings[index := Deliver(s.bindings[index], s.operation)]
            else next.bindings == s.bindings
  {
  }

  /** Each commit moves the phase along one edge of the installation protocol. */
  lemma CommitPhase(g: Geometry, h: Hash, w: World, call: Call)
    requires Decide(g, h, w, call).Commit? && !call.Initialize?
    ensures w.record.Holding?
    ensures var s, next := w.record.state, Decide(g, h, w, call).next;
            match call
            case Reserve(_, _, o) =>
              && !Pending(s.phase) && next.phase == WRITING
              && next.operation == o.(slot := next.operation.slot) && !Referenced(s, next.operation.slot)
            case Prepare(_, accepted) =>
              && s.phase == WRITING && next.phase == PREPARED && next.operation == s.operation && accepted
              && CandidateCheck(g, h, w.flash, s.operation) == Ok
            case BeginTrial(_, running, boot) =>
              && s.phase == PREPARED && next.phase == TRIAL_STARTED && running == s.operation.target
              && next.operation == s.operation.(trialBoot := boot)
            case MarkHealthy(_, boot) =>
              && s.phase == TRIAL_STARTED && next.phase == HEALTH_VERIFIED && boot == s.operation.trialBoot
              && next.operation == s.operation
            case Confirm(_, running, boot) =>
              && s.phase == HEALTH_VERIFIED && next.phase == CONFIRMED && running == s.operation.target
              && boot == s.operation.trialBoot && next.operation == s.operation
            case Abandon(_, _, _) => Pending(s.phase) && next.phase == ABORTED
            case Initialize(_, _) => true
  {
  }

  // ------------------------------------------------------------------ sequence numbers

  /** The durable sequence number counts the commits, so it grows with every one of them. */
  lemma {:induction false} SequenceCountsCommits(g: Geometry, h: Hash, run: History)
    requires Run(g, h, run)
    ensures HasRecord(run) <==> Log(run) != []
    ensures HasRecord(run) ==> Current(g, h, run).sequence == |Log(run)|
  {
    match run
    case Blank(_) =>
    case Then(past, step, world) =>
      SequenceCountsCommits(g, h, past);
      if step.Do? {
        CommitSequence(g, h, Now(past), step.call);
        RunStaysGood(g, h, run);
        RunStaysGood(g, h, past);
        CommitKeepsGood(g, h, Now(past), step.call);
      }
  }

  /** The first commit initialises; the commit after k others expected sequence number k. */
  lemma {:induction false} CommitsExpectTheirIndex(g: Geometry, h: Hash, run: History, k: nat)
    requires Run(g, h, run) && k < |Log(run)|
    ensures Log(run)[k].call.Initialize? <==> k == 0
    ensures k > 0 ==> Expected(Log(run)[k].call) == k
  {
    if run.step.Do? && k == |Log(run.past)| {
      CommitSequence(g, h, Now(run.past), run.step.call);
      SequenceCountsCommits(g, h, run.past);
    } else {
      CommitsExpectTheirIndex(g, h, run.past, k);
    }
  }

  /** Of all the calls ever made with one expected sequence number, at most one commits. */
  lemma AtMostOneCommitPerSequence(g: Geometry, h: Hash, run: History, j: nat, k: nat)
    requires Run(g, h, run) && 0 < j < |Log(run)| && 0 < k < |Log(run)|
    requires !Log(run)[j].call.Initialize? && !Log(run)[k].call.Initialize?
    requires Expected(Log(run)[j].call) == Expected(Log(run)[k].call)
    ensures j == k
  {
    CommitsExpectTheirIndex(g, h, run, j);
    CommitsExpectTheirIndex(g, h, run, k);
  }

  /** A call with a stale sequence number is refused in every state of every run. */
  lemma StaleCallIsRefused(g: Geometry, h: Hash, run: History, call: Call)
    requires Run(g, h, run) && !call.Initialize? && Expected(call) != |Log(run)|
    ensures Decide(g, h, Now(run), call).Refuse?
  {
    SequenceCountsCommits(g, h, run);
    if Decide(g, h, Now(run), call).Commit? {
      CommitSequence(g, h, Now(run), call);
      assert false;
    }
  }

  // ------------------------------------------------------------------ firmware and schema

  predicate SameFirmware(a: State, b: State) {
    forall i | 0 <= i < BINDING_COUNT ::
      a.bindings[i].present == b.bindings[i].present && a.bindings[i].firmware == b.bindings[i].firmware
  }

  predicate KeepsSchemas(a: State, b: State) {
    forall i | 0 <= i < BINDING_COUNT && a.bindings[i].packagePresent ::
      b.bindings[i].packagePresent && a.bindings[i].dataSchema == b.bindings[i].dataSchema
  }

  lemma CommitKeepsSchemas(g: Geometry, h: Hash, w: World, call: Call)
    requires WorldGood(g, h, w) && Decide(g, h, w, call).Commit? && w.record.Holding?
    ensures var s, next := w.record.state, Decide(g, h, w, call).next;
            SameFirmware(s, next) && KeepsSchemas(s, next)
  {
    CommitSequence(g, h, w, call);
    CommitBindings(g, h, w, call);
    CommitPhase(g, h, w, call);
  }

  /** Along a run a firmware keeps its place, and a confirmed package keeps its data schema. */
  lemma {:induction false} SchemasNeverChange(g: Geometry, h: Hash, past: History, run: History)
    requires Run(g, h, run) && Extends(run, past) && Run(g, h, past) && HasRecord(past)
    ensures HasRecord(run)
    ensures SameFirmware(Current(g, h, past), Current(g, h, run))
    ensures KeepsSchemas(Current(g, h, past), Current(g, h, run))
  {
    if run != past {
      SchemasNeverChange(g, h, past, run.past);
      RunStaysGood(g, h, run.past);
      if run.step.Do? {
        CommitKeepsSchemas(g, h, Now(run.past), run.step.call);
        CommitKeepsGood(g, h, Now(run.past), run.step.call);
      }
    }
  }

  // ------------------------------------------------------------------ provenance

  /** The commit that reserved operation o. */
  predicate ReservedBy(g: Geometry, h: Hash, e: Entry, o: Operation) {
    && e.call.Reserve? && e.call.operation == o.(slot := 0, trialBoot := e.call.operation.trialBoot)
    && e.call.firmware.running == o.target
    && Decide(g, h, e.at, e.call).Commit? && Decide(g, h, e.at, e.call).next.operation.slot == o.slot
  }

  /** The commit that read o's bytes back, found their digest right and had them accepted. */
  predicate PreparedBy(g: Geometry, h: Hash, e: Entry, o: Operation) {
    e.call.Prepare? && e.call.accepted && CandidateCheck(g, h, e.at.flash, o) == Ok
  }

  /** The k-th step of the installation of o; the last three happen under one boot id. */
  predicate Stage(g: Geometry, h: Hash, k: nat, e: Entry, o: Operation) {
    match k
    case 0 => ReservedBy(g, h, e, o)
    case 1 => PreparedBy(g, h, e, o)
    case 2 => e.call.BeginTrial? && e.call.running == o.target && e.call.boot == o.trialBoot
    case 3 => e.call.MarkHealthy? && e.call.boot == o.trialBoot
    case 4 => e.call.Confirm? && e.call.running == o.target && e.call.boot == o.trialBoot
    case _ => false
  }

  /** The entries are the first steps of the installation of o. */
  predicate Chain(g: Geometry, h: Hash, entries: seq<Entry>, o: Operation) {
    forall k | 0 <= k < |entries| :: Stage(g, h, k, entries[k], o)
  }

  /** The trial's boot id is not part of the two steps before it. */
  lemma ChainIgnoresBoot(g: Geometry, h: Hash, entries: seq<Entry>, o: Operation, boot: Id)
    requires |entries| <= 2 && Chain(g, h, entries, o)
    ensures Chain(g, h, entries, o.(trialBoot := boot))
  {
    forall k | 0 <= k < |entries|
      ensures Stage(g, h, k, entries[k], o.(trialBoot := boot))
    {
      assert Stage(g, h, k, entries[k], o);
    }
  }

  lemma ChainGrows(g: Geometry, h: Hash, entries: seq<Entry>, e: Entry, o: Operation)
    requires Chain(g, h, entries, o) && Stage(g, h, |entries|, e, o)
    ensures Chain(g, h, entries + [e], o)
  {
  }

  /** The bindings the first commit stored. */
  function InitialBindings(log: seq<Entry>): Bindings
    requires |log| > 0 && log[0].call.Initialize?
  {
    log[0].call.bindings
  }

  predicate Installed(g: Geometry, h: Hash, log: seq<Entry>, p: nat, o: Operation, b: Binding) {
    p + 5 <= |log| && Chain(g, h, log[p..p + 5], o) && Delivers(o, b)
  }

  /** A package is either the one initialize was given or the end of a complete installation. */
  ghost predicate HasOrigin(g: Geometry, h: Hash, log: seq<Entry>, b: Binding, initial: Binding) {
    b == initial || exists p: nat, o: Operation :: Installed(g, h, log, p, o, b)
  }

  lemma OriginSurvives(g: Geometry, h: Hash, log: seq<Entry>, e: Entry, b: Binding, initial: Binding)
    requires HasOrigin(g, h, log, b, initial)
    ensures HasOrigin(g, h, log + [e], b, initial)
  {
    if b != initial {
      var p: nat, o: Operation :| Installed(g, h, log, p, o, b);
      assert (log + [e])[p..p + 5] == log[p..p + 5];
      assert Installed(g, h, log + [e], p, o, b);
    }
  }

  /** The last n commits. */
  function Last(log: seq<Entry>, n: nat): seq<Entry>
    requires n <= |log|
  {
    log[|log| - n..]
  }

  /** A pending operation in phase n has the last n commits as its steps so far. */
  predicate PendingChain(g: Geometry, h: Hash, log: seq<Entry>, s: State) {
    Pending(s.phase) ==> s.phase <= |log| && Chain(g, h, Last(log, s.phase), s.operation)
  }

  lemma LastGrows(log: seq<Entry>, e: Entry, n: nat)
    requires n <= |log|
    ensures Last(log + [e], n + 1) == Last(log, n) + [e]
  {
  }

  /** A commit of one of the five steps makes the chain of the pending operation one longer. */
  lemma CommitExtendsChain(g: Geometry, h: Hash, log: seq<Entry>, w: World, call: Call)
    requires Decide(g, h, w, call).Commit? && !call.Initialize? && !call.Abandon?
    requires w.record.Holding? && PendingChain(g, h, log, w.record.state)
    ensures var next := Decide(g, h, w, call).next;
            1 <= next.phase <= |log| + 1 && Chain(g, h, Last(log + [Entry(call, w)], next.phase), next.operation)
  {
    var s, next, e := w.record.state, Decide(g, h, w, call).next, Entry(call, w);
    CommitPhase(g, h, w, call);
    if call.Reserve? {
      ReserveRecorded(g, h, w, call);
    }
    var n := next.phase - 1;
    var entries := Last(log, n);
    LastGrows(log, e, n);
    if call.BeginTrial? {
      ChainIgnoresBoot(g, h, entries, s.operation, call.boot);
    }
    StageReached(g, h, w, call);
    ChainGrows(g, h, entries, e, next.operation);
  }

  lemma StageReached(g: Geometry, h: Hash, w: World, call: Call)
    requires Decide(g, h, w, call).Commit? && !call.Initialize? && !call.Abandon?
    ensures var next := Decide(g, h, w, call).next;
            next.phase > 0 && Stage(g, h, next.phase - 1, Entry(call, w), next.operation)
  {
    CommitPhase(g, h, w, call);
    if call.Reserve? {
      ReserveRecorded(g, h, w, call);
    }
  }

  lemma CommitKeepsChain(g: Geometry, h: Hash, log: seq<Entry>, w: World, call: Call)
    requires Decide(g, h, w, call).Commit? && !call.Initialize?
    requires w.record.Holding? && PendingChain(g, h, log, w.record.state)
    ensures PendingChain(g, h, log + [Entry(call, w)], Decide(g, h, w, call).next)
  {
    CommitPhase(g, h, w, call);
    if !call.Abandon? {
      CommitExtendsChain(g, h, log, w, call);
    }
  }

  lemma ReserveRecorded(g: Geometry, h: Hash, w: World, call: Call)
    requires call.Reserve? && Decide(g, h, w, call).Commit?
    ensures ReservedBy(g, h, Entry(call, w), Decide(g, h, w, call).next.operation)
  {
  }

  lemma CommitKeepsOrigin(
    g: Geometry, h: Hash, log: seq<Entry>, w: World, call: Call, initial: Bindings, i: nat)
    requires i < BINDING_COUNT && Decide(g, h, w, call).Commit? && !call.Initialize?
    requires WorldGood(g, h, w) && w.record.Holding?
    requires PendingChain(g, h, log, w.record.state)
    requires HasOrigin(g, h, log, w.record.state.bindings[i], initial[i])
    ensures HasOrigin(g, h, log + [Entry(call, w)], Decide(g, h, w, call).next.bindings[i], initial[i])
  {
    var s, next, e := w.record.state, Decide(g, h, w, call).next, Entry(call, w);
    CommitBindings(g, h, w, call);
    if next.bindings[i] == s.bindings[i] {
      OriginSurvives(g, h, log, e, s.bindings[i], initial[i]);
    } else {
      CommitPhase(g, h, w, call);
      CommitExtendsChain(g, h, log, w, call);
      assert Last(log + [e], 5) == (log + [e])[|log| - 4..|log| + 1];
      assert Installed(g, h, log + [e], |log| - 4, s.operation, next.bindings[i]);
    }
  }

  /** What the log says about where the state came from. */
  ghost predicate Traced(g: Geometry, h: Hash, log: seq<Entry>, s: State) {
    && log != [] && log[0].call.Initialize?
    && PendingChain(g, h, log, s)
    && HasOrigin(g, h, log, s.bindings[0], InitialBindings(log)[0])
    && HasOrigin(g, h, log, s.bindings[1], InitialBindings(log)[1])
  }

  lemma CommitKeepsTraced(g: Geometry, h: Hash, log: seq<Entry>, w: World, call: Call)
    requires WorldGood(g, h, w) && w.record.Holding? && Decide(g, h, w, call).Commit?
    requires Traced(g, h, log, w.record.state)
    ensures Traced(g, h, log + [Entry(call, w)], Decide(g, h, w, call).next)
  {
    CommitSequence(g, h, w, call);
    CommitKeepsChain(g, h, log, w, call);
    CommitKeepsOrigin(g, h, log, w, call, InitialBindings(log), 0);
    CommitKeepsOrigin(g, h, log, w, call, InitialBindings(log), 1);
  }

  lemma FirstCommitIsTraced(g: Geometry, h: Hash, w: World, call: Call)
    requires w.record.Absent? && Decide(g, h, w, call).Commit?
    ensures Traced(g, h, [Entry(call, w)], Decide(g, h, w, call).next)
  {
    CommitSequence(g, h, w, call);
  }

  type Trace = (seq<Entry>, State) -> bool

  /** The first commit of a run makes p true. */
  ghost predicate Starts(g: Geometry, h: Hash, p: Trace) {
    forall w: World, call: Call {:trigger Decide(g, h, w, call)} |
      w.record.Absent? && Decide(g, h, w, call).Commit? ::
      p([Entry(call, w)], Decide(g, h, w, call).next)
  }

  /** Every later commit keeps p true. */
  ghost predicate Carries(g: Geometry, h: Hash, p: Trace) {
    forall log: seq<Entry>, w: World, call: Call {:trigger log + [Entry(call, w)]} |
      WorldGood(g, h, w) && w.record.Holding? && p(log, w.record.state) && Decide(g, h, w, call).Commit? ::
      p(log + [Entry(call, w)], Decide(g, h, w, call).next)
  }

  lemma CarriesOver(g: Geometry, h: Hash, p: Trace, log: seq<Entry>, w: World, call: Call)
    requires Carries(g, h, p) && WorldGood(g, h, w) && w.record.Holding? && p(log, w.record.state)
    requires Decide(g, h, w, call).Commit?
    ensures p(log + [Entry(call, w)], Decide(g, h, w, call).next)
  {
  }

  lemma StartsOff(g: Geometry, h: Hash, p: Trace, w: World, call: Call)
    requires Starts(g, h, p) && w.record.Absent? && Decide(g, h, w, call).Commit?
    ensures p([Entry(call, w)], Decide(g, h, w, call).next)
  {
  }

  /** What holds of the first commit and is kept by every other holds of every state with a record. */
  lemma {:induction false} HoldsByCommits(g: Geometry, h: Hash, run: History, p: Trace)
    requires Run(g, h, run) && HasRecord(run) && Starts(g, h, p) && Carries(g, h, p)
    ensures p(Log(run), Now(run).record.state)
  {
    var past, w := run.past, Now(run.past);
    RunStaysGood(g, h, past);
    if HasRecord(past) {
      HoldsByCommits(g, h, past, p);
      if run.step.Do? {
        CarriesOver(g, h, p, Log(past), w, run.step.call);
      }
    } else {
      SequenceCountsCommits(g, h, past);
      StartsOff(g, h, p, w, run.step.call);
      assert Log(run) == [Entry(run.step.call, w)];
    }
  }

  /**
   In every state of every run, each binding is the one initialize stored or the result of
   five consecutive commits for that firmware: reserved, read back and accepted, tried,
   found healthy and confirmed under one boot id.
   */
  lemma EveryPackageHasOrigin(g: Geometry, h: Hash, run: History)
    requires Run(g, h, run) && HasRecord(run)
    ensures Traced(g, h, Log(run), Current(g, h, run))
  {
    forall w: World, call: Call | w.record.Absent? && Decide(g, h, w, call).Commit?
      ensures Traced(g, h, [Entry(call, w)], Decide(g, h, w, call).next)
    {
      FirstCommitIsTraced(g, h, w, call);
    }
    forall log: seq<Entry>, w: World, call: Call |
      WorldGood(g, h, w) && w.record.Holding? && Traced(g, h, log, w.record.state)
      && Decide(g, h, w, call).Commit?
      ensures Traced(g, h, log + [Entry(call, w)], Decide(g, h, w, call).next)
    {
      CommitKeepsTraced(g, h, log, w, call);
    }
    HoldsByCommits(g, h, run, (log, s) => Traced(g, h, log, s));
  }

  // ------------------------------------------------------------------ the next boot

  lemma {:induction false} FirmwareStaysBound(g: Geometry, h: Hash, run: History)
    requires Run(g, h, run) && HasRecord(run)
    ensures Log(run) != [] && Log(run)[0].call.Initialize?
    ensures Bound(Current(g, h, run)) == Bootable(Log(run)[0].call.firmware)
  {
    SequenceCountsCommits(g, h, run);
    CommitsExpectTheirIndex(g, h, run, 0);
    var w := Now(run.past);
    RunStaysGood(g, h, run.past);
    if HasRecord(run.past) {
      FirmwareStaysBound(g, h, run.past);
    }
    if run.step.Do? {
      var call := run.step.call;
      CommitSequence(g, h, w, call);
      CommitKeepsGood(g, h, w, call);
      if !call.Initialize? {
        CommitKeepsSchemas(g, h, w, call);
      }
    }
  }

  /**
   After any run, start-up with a firmware set finds every package intact. It succeeds exactly
   when the set is the one initialize was given, and asks for recovery exactly when an
   operation is pending.
   */
  lemma BootAfterRun(g: Geometry, h: Hash, run: History, f: FirmwareSet)
    requires Run(g, h, run) && HasRecord(run) && FirmwareSetValid(f)
    ensures Log(run) != [] && Log(run)[0].call.Initialize?
    ensures var s := Current(g, h, run);
            DecideBoot(g, h, Now(run), f) ==
            if Bootable(f) != Bootable(Log(run)[0].call.firmware) then Boot(Conflict, Blocked, None)
            else Boot(Ok, if Pending(s.phase) then RecoverConfirmed else RunConfirmed, Some(s))
  {
    FirmwareStaysBound(g, h, run);
  }
}
