/**
 The three-slot package store: its geometry, its durable state and the checks that
 guard them. Predicates say what a check means; methods are the checks themselves.
 */
module SlotState {
  import opened Octets
  import opened Bits
  import opened Multiples

  const SLOT_COUNT: nat := 3
  const BINDING_COUNT: nat := 2
  const IO_BYTES: nat := 256

  datatype Region = Region(offset: U32, size: U32)

  type Regions = s: seq<Region> | |s| == 3 witness [Region(0, 0), Region(0, 0), Region(0, 0)]

  datatype Geometry = Geometry(
    partitionOffset: U32, partitionSize: U32, eraseUnit: U32, writeUnit: U32, slots: Regions)

  /** The firmware named by a binding and, if any, the package confirmed for it. */
  datatype Binding = Binding(
    present: bool, packagePresent: bool, slot: Byte, firmware: Digest, package: Digest,
    packageSize: U32, guestAbi: U32, dataSchema: U32)

  type Bindings = s: seq<Binding> | |s| == 2 witness [NO_BINDING, NO_BINDING]

  datatype Operation = Operation(
    id: Id, target: Digest, package: Digest, slot: Byte,
    packageSize: U32, guestAbi: U32, dataSchema: U32, trialBoot: Id)

  const IDLE: Byte := 0
  const WRITING: Byte := 1
  const PREPARED: Byte := 2
  const TRIAL_STARTED: Byte := 3
  const HEALTH_VERIFIED: Byte := 4
  const CONFIRMED: Byte := 5
  const ABORTED: Byte := 6

  datatype State = State(sequence: U32, bindings: Bindings, phase: Byte, operation: Operation)

  const NO_BINDING := Binding(false, false, 0, ZERO_DIGEST, ZERO_DIGEST, 0, 0, 0)
  const NO_OPERATION := Operation(ZERO_ID, ZERO_DIGEST, ZERO_DIGEST, 0, 0, 0, 0, ZERO_ID)

  datatype FirmwareSet = FirmwareSet(bootableCount: Byte, bootable: DigestPair, running: Digest)

  type DigestPair = s: seq<Digest> | |s| == 2 witness [ZERO_DIGEST, ZERO_DIGEST]

  datatype Result =
    Ok | Empty | Invalid | IoFailed | Uncertain | Busy | NoSpace | Conflict | Untrusted

  // ------------------------------------------------------------------ geometry

  function PartitionEnd(g: Geometry): nat {
    g.partitionOffset + g.partitionSize
  }

  function End(r: Region): nat {
    r.offset + r.size
  }

  predicate UnitsValid(g: Geometry) {
    && g.partitionSize > 0 && g.eraseUnit > 0 && 0 < g.writeUnit <= IO_BYTES
    && Multiple(IO_BYTES, g.writeUnit) && Multiple(g.eraseUnit, g.writeUnit)
    && And(g.eraseUnit, g.eraseUnit - 1) == 0 && And(g.writeUnit, g.writeUnit - 1) == 0
    && PartitionEnd(g) <= U32_MAX
  }

  predicate Placed(g: Geometry, r: Region)
    requires g.eraseUnit > 0
  {
    && r.size > 0 && r.offset >= g.partitionOffset && End(r) <= PartitionEnd(g)
    && Multiple(r.offset, g.eraseUnit) && Multiple(r.size, g.eraseUnit)
  }

  predicate Disjoint(a: Region, b: Region) {
    End(a) <= b.offset || End(b) <= a.offset
  }

  /** Aligned slots inside the partition that do not overlap. */
  predicate GeometryValid(g: Geometry) {
    && UnitsValid(g)
    && (forall i | 0 <= i < SLOT_COUNT :: Placed(g, g.slots[i]))
    && (forall i, j | 0 <= j < i < SLOT_COUNT :: Disjoint(g.slots[i], g.slots[j]))
  }

  method CheckUnits(g: Geometry) returns (ok: bool)
    ensures ok <==> UnitsValid(g)
  {
    if g.partitionSize == 0 || g.eraseUnit == 0 || g.writeUnit == 0 || g.writeUnit > IO_BYTES {
      return false;
    }
    MultipleIsMod(IO_BYTES, g.writeUnit);
    MultipleIsMod(g.eraseUnit, g.writeUnit);
    ok := IO_BYTES % g.writeUnit == 0 && g.eraseUnit % g.writeUnit == 0
          && And(g.eraseUnit, g.eraseUnit - 1) == 0 && And(g.writeUnit, g.writeUnit - 1) == 0
          && g.partitionOffset + g.partitionSize <= U32_MAX;
  }

  method CheckPlaced(g: Geometry, slot: Region) returns (ok: bool)
    requires g.eraseUnit > 0
    ensures ok <==> Placed(g, slot)
  {
    MultipleIsMod(slot.offset, g.eraseUnit);
    MultipleIsMod(slot.size, g.eraseUnit);
    ok := slot.size != 0 && slot.offset >= g.partitionOffset && slot.offset % g.eraseUnit == 0
          && slot.size % g.eraseUnit == 0 && slot.offset + slot.size <= PartitionEnd(g);
  }

  method CheckDisjoint(g: Geometry, index: nat) returns (ok: bool)
    requires index < SLOT_COUNT
    ensures ok <==> forall j | 0 <= j < index :: Disjoint(g.slots[index], g.slots[j])
  {
    var slot := g.slots[index];
    for other := 0 to index
      invariant forall j | 0 <= j < other :: Disjoint(slot, g.slots[j])
    {
      var previous := g.slots[other];
      if slot.offset < previous.offset + previous.size && previous.offset < slot.offset + slot.size {
        assert !Disjoint(g.slots[index], g.slots[other]);
        return false;
      }
    }
    return true;
  }

  method CheckGeometry(g: Geometry) returns (ok: bool)
    ensures ok <==> GeometryValid(g)
  {
    ok := CheckUnits(g);
    if !ok {
      return;
    }
    for index := 0 to SLOT_COUNT
      invariant forall i | 0 <= i < index :: Placed(g, g.slots[i])
      invariant forall i, j | 0 <= j < i < index :: Disjoint(g.slots[i], g.slots[j])
    {
      ok := CheckPlaced(g, g.slots[index]);
      if ok {
        ok := CheckDisjoint(g, index);
      }
      if !ok {
        return;
      }
    }
  }

  /** The code's own power-of-two test means what it is for. */
  lemma UnitsArePowersOfTwo(g: Geometry)
    requires UnitsValid(g)
    ensures IsPowerOfTwo(g.eraseUnit) && IsPowerOfTwo(g.writeUnit)
  {
    PowerOfTwoTest(g.eraseUnit);
    PowerOfTwoTest(g.writeUnit);
  }

  // ------------------------------------------------------------------ state

  predicate Pending(phase: Byte) {
    WRITING <= phase <= HEALTH_VERIFIED
  }

  predicate NoPackage(b: Binding) {
    b.slot == 0 && AllZero(b.package) && b.packageSize == 0 && b.guestAbi == 0 && b.dataSchema == 0
  }

  predicate BindingValid(b: Binding, g: Geometry) {
    if !b.present then
      !b.packagePresent && AllZero(b.firmware) && NoPackage(b)
    else
      && !AllZero(b.firmware)
      && if !b.packagePresent then NoPackage(b)
         else
           && b.slot < SLOT_COUNT && !AllZero(b.package)
           && 0 < b.packageSize <= g.slots[b.slot].size && b.guestAbi > 0 && b.dataSchema > 0
  }

  predicate OperationFieldsValid(o: Operation, g: Geometry) {
    && !AllZero(o.id) && !AllZero(o.target) && !AllZero(o.package) && o.slot < SLOT_COUNT
    && 0 < o.packageSize <= g.slots[o.slot].size && o.guestAbi > 0 && o.dataSchema > 0
  }

  predicate Names(b: Binding, firmware: Digest) {
    b.present && b.firmware == firmware
  }

  predicate OperationValid(s: State, g: Geometry) {
    if s.phase == IDLE then
      s.operation == NO_OPERATION
    else
      && s.phase <= ABORTED
      && OperationFieldsValid(s.operation, g)
      && (exists i | 0 <= i < BINDING_COUNT :: Names(s.bindings[i], s.operation.target))
      && (Pending(s.phase) ==>
            forall i | 0 <= i < BINDING_COUNT ::
              !(s.bindings[i].packagePresent && s.bindings[i].slot == s.operation.slot))
      && (s.phase == WRITING || s.phase == PREPARED ==> AllZero(s.operation.trialBoot))
      && (TRIAL_STARTED <= s.phase <= CONFIRMED ==> !AllZero(s.operation.trialBoot))
  }

  method CheckOperation(s: State, g: Geometry) returns (ok: bool)
    ensures ok <==> OperationValid(s, g)
  {
    if s.phase == IDLE {
      return s.operation == NO_OPERATION;
    }
    if s.phase < WRITING || s.phase > ABORTED || !OperationFieldsValid(s.operation, g) {
      return false;
    }
    var targetFound := false;
    for index := 0 to BINDING_COUNT
      invariant targetFound <==> exists i | 0 <= i < index :: Names(s.bindings[i], s.operation.target)
      invariant Pending(s.phase) ==> forall i | 0 <= i < index ::
                  !(s.bindings[i].packagePresent && s.bindings[i].slot == s.operation.slot)
    {
      var binding := s.bindings[index];
      if binding.present && binding.firmware == s.operation.target {
        assert Names(s.bindings[index], s.operation.target);
        targetFound := true;
      }
      if WRITING <= s.phase <= HEALTH_VERIFIED && binding.packagePresent
        && binding.slot == s.operation.slot
      {
        return false;
      }
    }
    if !targetFound {
      return false;
    }
    if s.phase == WRITING || s.phase == PREPARED {
      return AllZero(s.operation.trialBoot);
    }
    if s.phase == TRIAL_STARTED || s.phase == HEALTH_VERIFIED || s.phase == CONFIRMED {
      return !AllZero(s.operation.trialBoot);
    }
    return true;
  }

  predicate SamePackage(a: Binding, b: Binding) {
    && a.packageSize == b.packageSize && a.package == b.package
    && a.guestAbi == b.guestAbi && a.dataSchema == b.dataSchema
  }

  /** The binding an operation leaves behind once it is confirmed. */
  predicate Delivers(o: Operation, b: Binding) {
    && b.present && b.packagePresent && b.firmware == o.target && b.slot == o.slot
    && b.packageSize == o.packageSize && b.package == o.package
    && b.guestAbi == o.guestAbi && b.dataSchema == o.dataSchema
  }

  predicate Compatible(a: Binding, b: Binding) {
    && (a.present || b.present)
    && (a.present && b.present ==> a.firmware != b.firmware)
    && (a.packagePresent && b.packagePresent && a.slot == b.slot ==> SamePackage(a, b))
  }

  predicate StateValid(s: State, g: Geometry) {
    && s.sequence > 0
    && BindingValid(s.bindings[0], g) && BindingValid(s.bindings[1], g)
    && Compatible(s.bindings[0], s.bindings[1])
    && OperationValid(s, g)
    && (s.phase == CONFIRMED ==>
          exists i | 0 <= i < BINDING_COUNT :: Delivers(s.operation, s.bindings[i]))
  }

  method CheckState(s: State, g: Geometry) returns (ok: bool)
    ensures ok <==> StateValid(s, g)
  {
    var first, second := s.bindings[0], s.bindings[1];
    if s.sequence == 0 || !BindingValid(first, g) || !BindingValid(second, g)
      || (!first.present && !second.present)
    {
      return false;
    }
    if first.present && second.present && first.firmware == second.firmware {
      return false;
    }
    if first.packagePresent && second.packagePresent && first.slot == second.slot
      && !SamePackage(first, second)
    {
      return false;
    }
    ok := CheckOperation(s, g);
    if ok && s.phase == CONFIRMED {
      var matched := false;
      for index := 0 to BINDING_COUNT
        invariant matched <==> exists i | 0 <= i < index :: Delivers(s.operation, s.bindings[i])
      {
        if Delivers(s.operation, s.bindings[index]) {
          matched := true;
        }
      }
      return matched;
    }
  }

  // ------------------------------------------------------------------ firmware sets

  predicate FirmwareSetValid(f: FirmwareSet) {
    && 0 < f.bootableCount <= BINDING_COUNT && !AllZero(f.running)
    && (forall i | 0 <= i < BINDING_COUNT :: AllZero(f.bootable[i]) <==> i >= f.bootableCount)
    && (forall i, j | 0 <= j < i < f.bootableCount :: f.bootable[i] != f.bootable[j])
    && f.running in f.bootable[..f.bootableCount]
  }

  method CheckFirmwareSet(f: FirmwareSet) returns (ok: bool)
    ensures ok <==> FirmwareSetValid(f)
  {
    if f.bootableCount == 0 || f.bootableCount > BINDING_COUNT || AllZero(f.running) {
      return false;
    }
    ghost var listed := f.bootable[..f.bootableCount];
    var runningFound := false;
    for index := 0 to BINDING_COUNT
      invariant forall i | 0 <= i < index :: AllZero(f.bootable[i]) <==> i >= f.bootableCount
      invariant forall i, j | 0 <= j < i < f.bootableCount && i < index :: f.bootable[i] != f.bootable[j]
      invariant runningFound <==> exists i | 0 <= i < index && i < f.bootableCount :: listed[i] == f.running
    {
      var digest := f.bootable[index];
      if index >= f.bootableCount {
        if !AllZero(digest) {
          return false;
        }
        continue;
      }
      if AllZero(digest) {
        return false;
      }
      for previous := 0 to index
        invariant forall j | 0 <= j < previous :: f.bootable[index] != f.bootable[j]
      {
        if digest == f.bootable[previous] {
          return false;
        }
      }
      assert listed[index] == digest;
      runningFound := runningFound || digest == f.running;
    }
    return runningFound;
  }

  function Bootable(f: FirmwareSet): set<Digest> {
    (if f.bootableCount > 0 then {f.bootable[0]} else {})
    + (if f.bootableCount > 1 then {f.bootable[1]} else {})
  }

  function Bound(s: State): set<Digest> {
    (if s.bindings[0].present then {s.bindings[0].firmware} else {})
    + (if s.bindings[1].present then {s.bindings[1].firmware} else {})
  }

  /** The stored bindings name exactly the firmware that can boot. */
  predicate FirmwareSetMatches(s: State, f: FirmwareSet) {
    Bound(s) == Bootable(f)
  }

  /** The comparison the code makes: every binding is bootable, and the counts agree. */
  predicate BoundWithin(s: State, f: FirmwareSet) {
    && (s.bindings[0].present ==> s.bindings[0].firmware in Bootable(f))
    && (s.bindings[1].present ==> s.bindings[1].firmware in Bootable(f))
    && Present(s) == f.bootableCount
  }

  function Present(s: State): nat {
    (if s.bindings[0].present then 1 else 0) + (if s.bindings[1].present then 1 else 0)
  }

  /** Inclusion and equal counts decide set equality, since neither side repeats a digest. */
  lemma InclusionAndCountDecide(s: State, g: Geometry, f: FirmwareSet)
    requires StateValid(s, g) && FirmwareSetValid(f)
    ensures BoundWithin(s, f) <==> FirmwareSetMatches(s, f)
  {
    assert f.bootableCount == 2 ==> f.bootable[1] != f.bootable[0];
    assert s.bindings[0].present ==> s.bindings[0].firmware in Bound(s);
    assert s.bindings[1].present ==> s.bindings[1].firmware in Bound(s);
    assert |Bound(s)| == Present(s);
    assert |Bootable(f)| == f.bootableCount;
    if BoundWithin(s, f) {
      assert Bound(s) <= Bootable(f);
      if Bound(s) != Bootable(f) {
        SubsetSmaller(Bound(s), Bootable(f));
      }
    }
  }

  /** Where bindings and firmware match, the running firmware has a binding. */
  lemma RunningIsBound(s: State, g: Geometry, f: FirmwareSet)
    requires StateValid(s, g) && FirmwareSetValid(f) && FirmwareSetMatches(s, f)
    ensures var index := FirmwareIndex(s, f.running);
            0 <= index < BINDING_COUNT && s.bindings[index].present && s.bindings[index].firmware == f.running
  {
    assert f.running in Bootable(f);
  }

  lemma SubsetSmaller<T>(a: set<T>, b: set<T>)
    requires a < b
    ensures |a| < |b|
  {
    assert b == a + (b - a);
  }

  method CheckFirmwareSetMatches(s: State, g: Geometry, f: FirmwareSet) returns (ok: bool)
    requires StateValid(s, g) && FirmwareSetValid(f)
    ensures ok <==> FirmwareSetMatches(s, f)
  {
    InclusionAndCountDecide(s, g, f);
    var bindingCount := 0;
    for index := 0 to BINDING_COUNT
      invariant bindingCount == (if index > 0 && s.bindings[0].present then 1 else 0)
                                + (if index > 1 && s.bindings[1].present then 1 else 0)
      invariant forall i | 0 <= i < index && s.bindings[i].present :: s.bindings[i].firmware in Bootable(f)
    {
      if s.bindings[index].present {
        bindingCount := bindingCount + 1;
        var found := false;
        for member := 0 to f.bootableCount
          invariant found <==> exists m | 0 <= m < member :: f.bootable[m] == s.bindings[index].firmware
        {
          found := found || s.bindings[index].firmware == f.bootable[member];
        }
        if !found {
          assert s.bindings[index].firmware !in Bootable(f);
          return false;
        }
      }
    }
    return bindingCount == f.bootableCount;
  }

  /** The index of the binding for a firmware, or -1. */
  method BindingForFirmware(s: State, firmware: Digest) returns (index: int)
    ensures -1 <= index < BINDING_COUNT
    ensures index >= 0 ==> Names(s.bindings[index], firmware)
    ensures index == -1 ==> firmware !in Bound(s)
    ensures index == FirmwareIndex(s, firmware)
  {
    index := 0;
    while index < BINDING_COUNT
      invariant 0 <= index <= BINDING_COUNT
      invariant forall i | 0 <= i < index :: !Names(s.bindings[i], firmware)
    {
      if s.bindings[index].present && s.bindings[index].firmware == firmware {
        assert Names(s.bindings[index], firmware);
        return;
      }
      assert !Names(s.bindings[index], firmware);
      index := index + 1;
    }
    assert !Names(s.bindings[0], firmware) && !Names(s.bindings[1], firmware);
    index := -1;
  }

  function FirmwareIndex(s: State, firmware: Digest): (index: int)
    ensures -1 <= index < BINDING_COUNT
  {
    if Names(s.bindings[0], firmware) then 0 else if Names(s.bindings[1], firmware) then 1 else -1
  }

  // ------------------------------------------------------------------ slot selection

  /** A slot some confirmed package lives in. */
  predicate Referenced(s: State, slot: nat) {
    exists i | 0 <= i < BINDING_COUNT :: s.bindings[i].packagePresent && s.bindings[i].slot == slot
  }

  predicate Selectable(s: State, g: Geometry, size: U32, slot: nat)
    requires slot < SLOT_COUNT
  {
    !Referenced(s, slot) && size <= g.slots[slot].size
  }

  /** The first unreferenced slot that is large enough, or SLOT_COUNT. */
  function SelectedSlot(s: State, g: Geometry, size: U32): (slot: nat)
    ensures slot <= SLOT_COUNT
    ensures slot < SLOT_COUNT ==> Selectable(s, g, size, slot)
    ensures forall i | 0 <= i < slot :: !Selectable(s, g, size, i)
  {
    if Selectable(s, g, size, 0) then 0
    else if Selectable(s, g, size, 1) then 1
    else if Selectable(s, g, size, 2) then 2
    else SLOT_COUNT
  }

  method SelectSlot(s: State, g: Geometry, size: U32) returns (selected: nat)
    requires StateValid(s, g)
    ensures selected == SelectedSlot(s, g, size)
  {
    var protectedSlot := new bool[SLOT_COUNT](_ => false);
    for index := 0 to BINDING_COUNT
      invariant forall k | 0 <= k < SLOT_COUNT ::
        protectedSlot[k] <==>
        exists i | 0 <= i < index :: s.bindings[i].packagePresent && s.bindings[i].slot == k
    {
      if s.bindings[index].packagePresent {
        protectedSlot[s.bindings[index].slot] := true;
      }
    }
    assert forall k | 0 <= k < SLOT_COUNT :: protectedSlot[k] <==> Referenced(s, k);
    selected := SLOT_COUNT;
    for index := 0 to SLOT_COUNT
      invariant selected == SLOT_COUNT
      invariant forall k | 0 <= k < index :: !Selectable(s, g, size, k)
    {
      if !protectedSlot[index] && size <= g.slots[index].size {
        assert Selectable(s, g, size, index);
        return index;
      }
    }
  }

  /** Two bindings can never reference all three slots. */
  lemma SomeSlotIsFree(s: State)
    ensures exists slot: nat | slot < SLOT_COUNT :: !Referenced(s, slot)
  {
    assert !Referenced(s, 0) || !Referenced(s, 1) || !Referenced(s, 2);
  }

  /** Running out of space means that every free slot is too small, and one is free. */
  lemma NoSpaceMeansTooSmall(s: State, g: Geometry, size: U32)
    ensures SelectedSlot(s, g, size) == SLOT_COUNT
       <==> forall slot: nat | slot < SLOT_COUNT && !Referenced(s, slot) :: size > g.slots[slot].size
    ensures (forall slot: nat | slot < SLOT_COUNT :: size <= g.slots[slot].size)
       ==> SelectedSlot(s, g, size) < SLOT_COUNT
  {
    SomeSlotIsFree(s);
    var selected := SelectedSlot(s, g, size);
    forall slot: nat | slot < SLOT_COUNT && selected == SLOT_COUNT && !Referenced(s, slot)
      ensures size > g.slots[slot].size
    {
      assert !Selectable(s, g, size, slot);
    }
  }
}
