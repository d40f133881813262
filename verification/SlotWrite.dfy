/**
 Erasing and programming the reserved slot: which Flash accesses it makes, and what the
 slot holds afterwards.
 */
module SlotWrite {
  import opened Octets
  import opened Bits
  import opened Multiples
  import opened SlotState
  import opened SlotProtocol
  import opened SlotIo
  import opened SlotProgress

  /** Where the package comes from. A faithful source always delivers its content. */
  datatype Source = Source(content: seq<Byte>, faithful: bool)

  /** The source callback fills the first `size` bytes of the buffer, with anything if it is not faithful. */
  method Fetch(source: Source, offset: nat, buffer: array<Byte>, size: nat) returns (ok: bool)
    requires size <= buffer.Length
    modifies buffer
    ensures forall i | size <= i < buffer.Length :: buffer[i] == old(buffer[i])
    ensures ok && source.faithful ==>
              offset + size <= |source.content| && buffer[..size] == source.content[offset..offset + size]
    ensures source.faithful && offset + size <= |source.content| ==> ok
  {
    if source.faithful {
      if offset + size > |source.content| {
        return false;
      }
      forall i | 0 <= i < size {
        buffer[i] := source.content[offset + i];
      }
      return true;
    }
    for i := 0 to size
      invariant forall k | size <= k < buffer.Length :: buffer[k] == old(buffer[k])
    {
      var b: Byte := *;
      buffer[i] := b;
    }
    ok := *;
  }

  // ------------------------------------------------------------------ the access plan

  function Chunk(size: nat, offset: nat): nat
    requires offset <= size
  {
    if size - offset > IO_BYTES then IO_BYTES else size - offset
  }

  /** A byte count rounded up to whole write units. */
  function Aligned(count: nat, unit: nat): nat
    requires unit > 0
  {
    if count == 0 then 0 else if count <= unit then unit else unit + Aligned(count - unit, unit)
  }

  /** The writes that remain once `offset` bytes are in place. */
  function Writes(base: nat, size: nat, unit: nat, offset: nat): seq<Access>
    requires offset <= size && unit > 0
    decreases size - offset
  {
    if offset == size then []
    else [Wrote(base + offset, Aligned(Chunk(size, offset), unit))]
         + Writes(base, size, unit, offset + Chunk(size, offset))
  }

  /** All accesses of one installation: one erase of the slot, then its writes in order. */
  function Plan(g: Geometry, slot: nat, size: nat): seq<Access>
    requires slot < SLOT_COUNT && g.writeUnit > 0
  {
    [Erased(g.slots[slot].offset, g.slots[slot].size)] + Writes(g.slots[slot].offset, size, g.writeUnit, 0)
  }

  lemma {:induction false} AlignedBounds(count: nat, unit: nat)
    requires unit > 0
    ensures Multiple(Aligned(count, unit), unit) && count <= Aligned(count, unit) < count + unit
  {
    if count > unit {
      AlignedBounds(count - unit, unit);
    }
  }

  /** The rounding expression the write loop evaluates. */
  lemma AlignedFormula(count: nat, unit: nat)
    requires unit > 0
    ensures (count + unit - 1) / unit * unit == Aligned(count, unit)
  {
    var n, a := count + unit - 1, Aligned(count, unit);
    AlignedBounds(count, unit);
    MultipleIsMod(a, unit);
    assert n == unit * (a / unit) + (n - a) by {
      assert a == unit * (a / unit) + a % unit;
    }
    DivisionIsUnique(n, unit, a / unit, n - a);
    assert a == unit * (a / unit) + a % unit;
  }

  method RoundUp(count: nat, unit: nat) returns (aligned: nat)
    requires unit > 0
    ensures aligned == Aligned(count, unit)
  {
    AlignedFormula(count, unit);
    aligned := (count + unit - 1) / unit * unit;
  }

  /** One chunk of the write loop stays inside the slot and on the write grid. */
  lemma ChunkFits(g: Geometry, slot: nat, size: nat, offset: nat)
    requires GeometryValid(g) && slot < SLOT_COUNT && size <= g.slots[slot].size
    requires offset < size && Multiple(offset, IO_BYTES)
    ensures var aligned := Aligned(Chunk(size, offset), g.writeUnit);
            && Chunk(size, offset) <= aligned <= IO_BYTES && Multiple(aligned, g.writeUnit)
            && offset + aligned <= g.slots[slot].size
            && Multiple(g.slots[slot].offset + offset, g.writeUnit)
  {
    var unit, count := g.writeUnit, Chunk(size, offset);
    assert Placed(g, g.slots[slot]);
    AlignedBounds(count, unit);
    MultiplesTrans(offset, IO_BYTES, unit);
    MultiplesTrans(g.slots[slot].offset, g.eraseUnit, unit);
    MultiplesTrans(g.slots[slot].size, g.eraseUnit, unit);
    MultiplesAdd(g.slots[slot].offset, offset, unit);
    AlignedStaysBelow(0, count, IO_BYTES, unit);
    AlignedStaysBelow(offset, count, g.slots[slot].size, unit);
  }

  /** Rounding up on the grid does not go past a bound on the grid. */
  lemma AlignedStaysBelow(offset: nat, count: nat, bound: nat, unit: nat)
    requires unit > 0 && Multiple(offset, unit) && Multiple(bound, unit) && offset + count <= bound
    ensures offset + Aligned(count, unit) <= bound
  {
    var aligned := Aligned(count, unit);
    AlignedBounds(count, unit);
    MultiplesAdd(offset, aligned, unit);
    MultiplesBelow(offset + aligned, bound, unit);
  }

  /** A write that respects the slot, the write grid, the buffer size and 32-bit addresses. */
  predicate InSlot(g: Geometry, slot: nat, a: Access)
    requires slot < SLOT_COUNT && g.writeUnit > 0
  {
    && g.slots[slot].offset <= a.offset && a.offset + a.size <= End(g.slots[slot]) <= U32_MAX
    && (a.Wrote? ==> 0 < a.size <= IO_BYTES && Multiple(a.offset, g.writeUnit) && Multiple(a.size, g.writeUnit))
  }

  /** The accesses start at `low` or later, each after the end of the one before. */
  predicate Ascending(ws: seq<Access>, low: nat) {
    && (forall k | 0 <= k < |ws| :: ws[k].offset >= low)
    && (forall j, k | 0 <= j < k < |ws| :: ws[j].offset + ws[j].size <= ws[k].offset)
  }

  /** The writes from `offset` on never overlap, and each is what every write of the loop is. */
  lemma {:induction false} WritesAscend(base: nat, size: nat, unit: nat, offset: nat, legal: Access -> bool)
    requires 0 < unit && offset <= size && (Multiple(offset, IO_BYTES) || offset == size)
    requires Aligned(IO_BYTES, unit) == IO_BYTES
    requires forall o: nat | o < size && Multiple(o, IO_BYTES) :: legal(Wrote(base + o, Aligned(Chunk(size, o), unit)))
    ensures forall a | a in Writes(base, size, unit, offset) :: a.Wrote? && legal(a)
    ensures Ascending(Writes(base, size, unit, offset), base + offset)
    decreases size - offset
  {
    if offset < size {
      var count := Chunk(size, offset);
      WritesAscend(base, size, unit, offset + count, legal);
      AscendingCons(Wrote(base + offset, Aligned(count, unit)),
                    Writes(base, size, unit, offset + count), base + offset + count);
    }
  }

  lemma AscendingCons(a: Access, rest: seq<Access>, next: nat)
    requires Ascending(rest, next) && (rest == [] || a.offset + a.size <= next) && a.offset <= next
    ensures Ascending([a] + rest, a.offset)
  {
  }

  lemma FirstWriteInSlot(g: Geometry, slot: nat, size: nat, offset: nat)
    requires GeometryValid(g) && slot < SLOT_COUNT && size <= g.slots[slot].size
    requires offset < size && Multiple(offset, IO_BYTES)
    ensures InSlot(g, slot, Wrote(g.slots[slot].offset + offset, Aligned(Chunk(size, offset), g.writeUnit)))
  {
    ChunkFits(g, slot, size, offset);
    assert Placed(g, g.slots[slot]);
  }

  lemma FullChunk(count: nat, unit: nat)
    requires count == IO_BYTES && 0 < unit && Multiple(IO_BYTES, unit)
    ensures Aligned(count, unit) == count
  {
    AlignedBounds(count, unit);
    if Aligned(count, unit) > count {
      MultiplesApart(Aligned(count, unit), count, unit);
    }
  }

  /**
   Every access of an installation lies inside the reserved slot, on the write grid and
   within 32-bit addresses, and no byte is programmed twice after the erase.
   */
  lemma PlanIsSafe(g: Geometry, slot: nat, size: nat)
    requires GeometryValid(g) && slot < SLOT_COUNT && 0 < size <= g.slots[slot].size
    ensures var plan := Plan(g, slot, size);
            && plan[0] == Erased(g.slots[slot].offset, g.slots[slot].size)
            && (forall a | a in plan :: InSlot(g, slot, a))
            && (forall a | a in plan[1..] :: a.Wrote?)
            && Ascending(plan[1..], g.slots[slot].offset)
  {
    var base, unit := g.slots[slot].offset, g.writeUnit;
    FullChunk(IO_BYTES, unit);
    forall o: nat | o < size && Multiple(o, IO_BYTES)
      ensures InSlot(g, slot, Wrote(base + o, Aligned(Chunk(size, o), unit)))
    {
      FirstWriteInSlot(g, slot, size, o);
    }
    WritesAscend(base, size, unit, 0, a => InSlot(g, slot, a));
    assert Placed(g, g.slots[slot]);
    assert Plan(g, slot, size)[1..] == Writes(base, size, unit, 0);
  }

  /** So no access of an installation touches a slot some confirmed package lives in. */
  lemma PlanSparesBoundSlots(g: Geometry, s: State, k: nat, other: nat)
    requires GeometryValid(g) && StateValid(s, g) && s.phase == WRITING
    requires other < SLOT_COUNT && Referenced(s, other)
    requires k < |Plan(g, s.operation.slot, s.operation.packageSize)|
    ensures var a := Plan(g, s.operation.slot, s.operation.packageSize)[k];
            a.offset + a.size <= g.slots[other].offset || End(g.slots[other]) <= a.offset
  {
    var slot: nat := s.operation.slot;
    PlanIsSafe(g, slot, s.operation.packageSize);
    assert InSlot(g, slot, Plan(g, slot, s.operation.packageSize)[k]);
    assert other != slot;
    if slot < other {
      assert Disjoint(g.slots[other], g.slots[slot]);
    } else {
      assert Disjoint(g.slots[slot], g.slots[other]);
    }
  }

  // ------------------------------------------------------------------ writing

  lemma ProgramErased(b: Byte)
    ensures Program(0xff, b) == b
  {
    assert Pow2(4) == 16;
    assert Pow2(8) == 0x100;
    AndOnes(b, 8);
  }

  /** Programs the next chunk of the erased rest of the slot. */
  method WriteChunk(io: Io, r: Region, size: nat, offset: nat, aligned: nat, source: Source, buffer: array<Byte>)
    returns (ok: bool, ghost made: seq<Access>, ghost data: seq<Byte>)
    requires offset < size && Chunk(size, offset) <= aligned <= IO_BYTES && offset + aligned <= r.size
    requires End(r) <= io.flash.Length && buffer.Length == IO_BYTES && buffer != io.flash
    requires forall i | r.offset + offset <= i < End(r) :: io.flash[i] == 0xff
    modifies io.flash, io`accesses, buffer
    ensures AgreeOutside(old(io.flash[..]), io.flash[..], r)
    ensures io.accesses == old(io.accesses) + made && made <= [Wrote(r.offset + offset, aligned)]
    ensures ok ==> made == [Wrote(r.offset + offset, aligned)] && |data| == Chunk(size, offset)
    ensures ok ==> io.flash[..r.offset + offset] == old(io.flash[..r.offset + offset])
    ensures ok ==> io.flash[r.offset + offset..r.offset + offset + |data|] == data
    ensures ok ==> forall i | r.offset + offset + |data| <= i < End(r) :: io.flash[i] == 0xff
    ensures ok && source.faithful ==>
              offset + |data| <= |source.content| && data == source.content[offset..offset + |data|]
    ensures io.faultFree && source.faithful && |source.content| >= size ==> ok
  {
    var actual := Chunk(size, offset);
    made, data := [], [];
    for i := 0 to IO_BYTES
      invariant forall k | 0 <= k < i :: buffer[k] == 0xff
      modifies buffer
    {
      buffer[i] := 0xff;
    }
    ok := Fetch(source, offset, buffer, actual);
    if !ok {
      assert io.accesses == old(io.accesses) + made;
      return;
    }
    ok := io.FlashWrite(r.offset + offset, buffer, aligned);
    made := [Wrote(r.offset + offset, aligned)];
    if ok {
      data := buffer[..actual];
      forall i | r.offset + offset <= i < r.offset + offset + aligned
        ensures io.flash[i] == buffer[i - (r.offset + offset)]
      {
        ProgramErased(buffer[i - (r.offset + offset)]);
      }
    }
  }

  /** Every chunk of the write loop stays inside the region and the buffer. */
  predicate OnGrid(r: Region, size: nat, unit: nat) {
    && 0 < unit
    && forall offset: nat | offset < size && Multiple(offset, IO_BYTES) ::
         && Chunk(size, offset) <= Aligned(Chunk(size, offset), unit) <= IO_BYTES
         && offset + Aligned(Chunk(size, offset), unit) <= r.size
  }

  /** One turn of the write loop. */
  method WriteNext(io: Io, r: Region, unit: nat, source: Source, buffer: array<Byte>, size: nat,
                   ghost start: seq<Byte>, ghost delivered: seq<Byte>, offset: nat)
    returns (ok: bool, ghost step: seq<Access>, ghost data: seq<Byte>)
    requires OnGrid(r, size, unit) && offset < size && Multiple(offset, IO_BYTES)
    requires End(r) <= io.flash.Length && buffer.Length == IO_BYTES && buffer != io.flash
    requires |delivered| == offset && PartlyWritten(start, io.flash[..], r, delivered)
    modifies io.flash, io`accesses, buffer
    ensures AgreeOutside(start, io.flash[..], r)
    ensures io.accesses == old(io.accesses) + step
    ensures step <= [Wrote(r.offset + offset, Aligned(Chunk(size, offset), unit))]
    ensures ok ==> step == [Wrote(r.offset + offset, Aligned(Chunk(size, offset), unit))]
    ensures ok ==> |data| == Chunk(size, offset) && PartlyWritten(start, io.flash[..], r, delivered + data)
    ensures ok && source.faithful ==>
              offset + |data| <= |source.content| && data == source.content[offset..offset + |data|]
    ensures io.faultFree && source.faithful && |source.content| >= size ==> ok
  {
    var actual := Chunk(size, offset);
    var aligned := RoundUp(actual, unit);
    ghost var before := io.flash[..];
    ok, step, data := WriteChunk(io, r, size, offset, aligned, source, buffer);
    AgreeTrans(start, before, io.flash[..], r);
    if ok {
      Grown(start, before, io.flash[..], r, delivered, data);
    }
  }

  /** Programs an erased region chunk by chunk from the source. */
  method WriteRegion(io: Io, r: Region, size: nat, unit: nat, source: Source)
    returns (ok: bool, ghost made: seq<Access>, ghost delivered: seq<Byte>)
    requires OnGrid(r, size, unit) && size <= r.size && End(r) <= io.flash.Length
    requires forall i | r.offset <= i < End(r) :: io.flash[i] == 0xff
    modifies io.flash, io`accesses
    ensures AgreeOutside(old(io.flash[..]), io.flash[..], r)
    ensures io.accesses == old(io.accesses) + made && made <= Writes(r.offset, size, unit, 0)
    ensures ok ==> made == Writes(r.offset, size, unit, 0) && |delivered| == size
    ensures ok ==> io.flash[r.offset..r.offset + size] == delivered
    ensures ok ==> forall i | r.offset + size <= i < End(r) :: io.flash[i] == 0xff
    ensures ok && source.faithful ==> |source.content| >= size && delivered == source.content[..size]
    ensures io.faultFree && source.faithful && |source.content| >= size ==> ok
  {
    ghost var start := io.flash[..];
    var buffer := new Byte[IO_BYTES](_ => 0xff);
    var offset: nat := 0;
    ok, made, delivered := true, [], [];
    while offset < size
      invariant io.accesses == old(io.accesses) + made
      invariant Underway(r, size, unit, source, offset, made, delivered)
      invariant PartlyWritten(start, io.flash[..], r, delivered)
      invariant fresh(buffer) && buffer.Length == IO_BYTES && ok
    {
      ghost var step, data := [], [];
      ok, step, data := WriteNext(io, r, unit, source, buffer, size, start, delivered, offset);
      var next := offset + Chunk(size, offset);
      UnderwayStep(r, size, unit, source, offset, next, made, delivered, step, data);
      made := made + step;
      if !ok {
        return;
      }
      delivered, offset := delivered + data, next;
    }
  }

  /** Where the write loop stands: what is planned still, and what has come from the source. */
  ghost predicate Underway(
    r: Region, size: nat, unit: nat, source: Source, offset: nat, made: seq<Access>, delivered: seq<Byte>)
  {
    && unit > 0 && offset <= size && |delivered| == offset && (Multiple(offset, IO_BYTES) || offset == size)
    && made + Writes(r.offset, size, unit, offset) == Writes(r.offset, size, unit, 0)
    && (source.faithful ==> |source.content| >= offset && delivered == source.content[..offset])
  }

  predicate FromSource(source: Source, offset: nat, next: nat, data: seq<Byte>) {
    offset + |data| == next && (source.faithful ==> next <= |source.content| && data == source.content[offset..next])
  }

  lemma UnderwayStep(
    r: Region, size: nat, unit: nat, source: Source, offset: nat, next: nat, made: seq<Access>, delivered: seq<Byte>,
    step: seq<Access>, data: seq<Byte>)
    requires Underway(r, size, unit, source, offset, made, delivered)
    requires offset < size && next == offset + Chunk(size, offset)
    requires step <= [Wrote(r.offset + offset, Aligned(Chunk(size, offset), unit))]
    ensures made + step <= Writes(r.offset, size, unit, 0)
    ensures step != [] && FromSource(source, offset, next, data) ==>
              Underway(r, size, unit, source, next, made + step, delivered + data)
  {
    PlanPrefix(made, step, Wrote(r.offset + offset, Aligned(Chunk(size, offset), unit)),
               Writes(r.offset, size, unit, next));
    if source.faithful && next <= |source.content| {
      assert source.content[..next] == source.content[..offset] + source.content[offset..next];
    }
  }

  /** Erases the slot, then programs it from the source. */
  method WriteSlot(io: Io, g: Geometry, slot: Byte, size: U32, source: Source)
    returns (ok: bool, ghost made: seq<Access>, ghost delivered: seq<Byte>)
    requires GeometryValid(g) && slot < SLOT_COUNT && 0 < size <= g.slots[slot].size
    modifies io.flash, io`accesses
    ensures AgreeOutside(old(io.flash[..]), io.flash[..], g.slots[slot])
    ensures io.accesses == old(io.accesses) + made && [] != made <= Plan(g, slot, size)
    ensures ok ==> made == Plan(g, slot, size)
    ensures ok ==> End(g.slots[slot]) <= io.flash.Length && |delivered| == size
    ensures ok ==> io.flash[..] == Programmed(old(io.flash[..]), g.slots[slot], delivered)
    ensures ok && source.faithful ==> |source.content| >= size && delivered == source.content[..size]
    ensures io.faultFree && io.flash.Length >= PartitionEnd(g) && source.faithful && |source.content| >= size ==> ok
  {
    var r := g.slots[slot];
    assert Placed(g, r);
    forall offset: nat | offset < size && Multiple(offset, IO_BYTES)
      ensures Chunk(size, offset) <= Aligned(Chunk(size, offset), g.writeUnit) <= IO_BYTES
      ensures offset + Aligned(Chunk(size, offset), g.writeUnit) <= r.size
    {
      ChunkFits(g, slot, size, offset);
    }
    made, delivered := [Erased(r.offset, r.size)], [];
    ok := io.FlashErase(r.offset, r.size);
    if ok {
      ghost var erased, writes := io.flash[..], [];
      ok, writes, delivered := WriteRegion(io, r, size, g.writeUnit, source);
      made := made + writes;
      AgreeTrans(old(io.flash[..]), erased, io.flash[..], r);
      if ok {
        SlotContents(old(io.flash[..]), io.flash[..], r, delivered);
      }
    }
  }

  /** The region starts with content and is still erased after it; nothing else has changed. */
  predicate PartlyWritten(before: seq<Byte>, after: seq<Byte>, r: Region, content: seq<Byte>) {
    && AgreeOutside(before, after, r) && |content| <= r.size && End(r) <= |after|
    && after[r.offset..r.offset + |content|] == content
    && forall i | r.offset + |content| <= i < End(r) :: after[i] == 0xff
  }

  lemma Grown(before: seq<Byte>, mid: seq<Byte>, after: seq<Byte>, r: Region, content: seq<Byte>, data: seq<Byte>)
    requires PartlyWritten(before, mid, r, content) && AgreeOutside(mid, after, r)
    requires |content| + |data| <= r.size
    requires after[..r.offset + |content|] == mid[..r.offset + |content|]
    requires after[r.offset + |content|..r.offset + |content| + |data|] == data
    requires forall i | r.offset + |content| + |data| <= i < End(r) :: after[i] == 0xff
    ensures PartlyWritten(before, after, r, content + data)
  {
    var base, done := r.offset, r.offset + |content|;
    assert after[base..done] == after[..done][base..] == mid[..done][base..] == mid[base..done];
    assert after[base..done + |data|] == after[base..done] + after[done..done + |data|];
  }

  lemma PlanPrefix(made: seq<Access>, step: seq<Access>, a: Access, rest: seq<Access>)
    requires step <= [a]
    ensures made + step <= made + ([a] + rest)
    ensures step == [a] ==> made + ([a] + rest) == (made + step) + rest
  {
  }

  lemma AgreeTrans(a: seq<Byte>, b: seq<Byte>, c: seq<Byte>, r: Region)
    requires AgreeOutside(a, b, r) && AgreeOutside(b, c, r)
    ensures AgreeOutside(a, c, r)
  {
  }

  lemma SlotContents(before: seq<Byte>, after: seq<Byte>, r: Region, content: seq<Byte>)
    requires End(r) <= |before| && |content| <= r.size && AgreeOutside(before, after, r)
    requires after[r.offset..r.offset + |content|] == content
    requires forall i | r.offset + |content| <= i < End(r) :: after[i] == 0xff
    ensures after == Programmed(before, r, content)
  {
  }
}
