/**
 The device's view of a Wasm payload: one 512-byte block filled on demand, and cursors
 into it. The block is proved to be invisible: every read returns what plain indexing
 of the payload would, and no read leaves the payload.
 */
module WasmReader {
  import opened Octets
  import opened WasmFormat

  const READ_BYTES: nat := 512

  datatype Fetched = Fetched(offset: nat, size: nat)

  class Reader {
    const package: seq<Byte>
    const base: nat
    const size: nat
    const faultFree: bool
    const block: array<Byte>
    var cachedBegin: nat
    var cachedSize: nat
    var readFailed: bool
    ghost const payload: seq<Byte>
    ghost var fetches: seq<Fetched>

    constructor (package: seq<Byte>, base: nat, size: nat, faultFree: bool, block: array<Byte>)
      requires base + size <= |package| && block.Length == READ_BYTES
      ensures Valid() && !readFailed
      ensures this.block == block && this.faultFree == faultFree && this.base == base && this.size == size
      ensures payload == package[base..base + size]
    {
      this.package := package;
      this.base := base;
      this.size := size;
      this.faultFree := faultFree;
      this.block := block;
      payload := package[base..base + size];
      cachedBegin, cachedSize := 0, 0;
      readFailed := false;
      fetches := [];
    }

    ghost predicate Valid()
      reads this, block
    {
      && base + size <= |package| && block.Length == READ_BYTES && payload == package[base..base + size]
      && cachedSize <= READ_BYTES && cachedBegin + cachedSize <= size
      && block[..cachedSize] == payload[cachedBegin..cachedBegin + cachedSize]
      && (readFailed ==> !faultFree)
      && (forall f | f in fetches :: base <= f.offset && 0 < f.size <= READ_BYTES && f.offset + f.size <= base + size)
    }

    /** The bytes from the cursor to the end of the enclosing section. */
    ghost function Window(cursor: nat, end: nat): (w: seq<Byte>)
      requires cursor <= end <= |payload|
    {
      payload[cursor..end]
    }

    /** Reads part of the payload; a failed read may leave anything in the destination. */
    method Fetch(offset: nat, amount: nat, destination: array<Byte>) returns (ok: bool)
      requires Valid() && 0 < amount <= READ_BYTES == destination.Length && offset + amount <= size
      modifies destination, `fetches
      ensures fetches == old(fetches) + [Fetched(base + offset, amount)]
      ensures ok ==> destination[..amount] == payload[offset..offset + amount]
      ensures faultFree ==> ok
    {
      assert payload == package[base..base + size];
      fetches := fetches + [Fetched(base + offset, amount)];
      ok := *;
      ok := ok || faultFree;
      if ok {
        forall i | 0 <= i < amount {
          destination[i] := package[base + offset + i];
        }
        SliceOfSlice(package, base, base + size, offset, offset + amount);
        assert destination[..amount] == package[base + offset..base + (offset + amount)];
      } else {
        for i := 0 to amount
          modifies destination
        {
          var b: Byte := *;
          destination[i] := b;
        }
      }
    }

    /** A digest callback, which may fail without touching anything. */
    method Ready() returns (ok: bool)
      ensures faultFree ==> ok
    {
      ok := *;
      ok := ok || faultFree;
    }

    method ByteAt(offset: nat) returns (ok: bool, value: Byte)
      requires Valid()
      modifies this, block
      ensures Valid() && (old(readFailed) ==> readFailed)
      ensures ok ==> offset < size && value == payload[offset]
      ensures !ok && !readFailed ==> offset >= size
    {
      value := 0;
      if offset >= size {
        return false, 0;
      }
      if cachedSize == 0 || offset < cachedBegin || offset - cachedBegin >= cachedSize {
        var begin := offset / READ_BYTES * READ_BYTES;
        var amount := if size - begin < READ_BYTES then size - begin else READ_BYTES;
        var read := Fetch(begin, amount, block);
        if !read {
          readFailed := true;
          cachedSize := 0;
          return false, 0;
        }
        cachedBegin := begin;
        cachedSize := amount;
      }
      assert block[..cachedSize][offset - cachedBegin] == payload[offset];
      return true, block[offset - cachedBegin];
    }

    method NextByte(end: nat, cursor: nat) returns (ok: bool, value: Byte, next: nat)
      requires Valid() && cursor <= end <= size == |payload|
      modifies this, block
      ensures Valid() && (old(readFailed) ==> readFailed)
      ensures ok ==> cursor < end && next == cursor + 1 && value == Window(cursor, end)[0]
      ensures ok ==> WasmFormat.ByteAt(Window(cursor, end)) == Got(value, Window(next, end))
      ensures !ok && !readFailed ==> WasmFormat.ByteAt(Window(cursor, end)).Fail?
    {
      next := cursor;
      value := 0;
      ok := false;
      if cursor < end {
        ok, value := ByteAt(cursor);
        if ok {
          next := cursor + 1;
        }
      }
    }

    /** The five-byte boundary of the number format; the accumulator adds disjoint groups of seven bits. */
    method NextU32(end: nat, cursor: nat) returns (ok: bool, value: U32, next: nat)
      requires Valid() && cursor <= end <= size == |payload|
      modifies this, block
      ensures Valid() && (old(readFailed) ==> readFailed)
      ensures ok ==> cursor < next <= end && U32At(Window(cursor, end)) == Got(value, Window(next, end))
      ensures !ok && !readFailed ==> U32At(Window(cursor, end)).Fail?
    {
      var result: nat, scale: nat := 0, 1;
      ghost var number := Window(cursor, end);
      next := cursor;
      for index := 0 to 5
        invariant Valid() && (old(readFailed) ==> readFailed)
        invariant cursor <= next <= end && (index > 0 ==> cursor < next)
        invariant Continues(number, result, scale, Window(next, end), index)
      {
        ghost var window := Window(next, end);
        var got, octet, after := NextByte(end, next);
        if !got || (index == 4 && octet >= 0x10) {
          if !readFailed {
            ContinuesNot(number, result, scale, window, index);
          }
          return false, 0, next;
        }
        assert window == [octet] + Window(after, end);
        ContinuesStep(number, result, scale, octet, Window(after, end), index);
        next := after;
        if octet < 0x80 {
          return true, Plus(result, scale, octet), next;
        }
        result := Plus(result, scale, octet - 0x80);
        scale := scale * 0x80;
      }
      return false, 0, next;
    }

    /** A length and the span of bytes it announces. */
    method NextSpan(end: nat, cursor: nat) returns (ok: bool, start: nat, next: nat)
      requires Valid() && cursor <= end <= size == |payload|
      modifies this, block
      ensures Valid() && (old(readFailed) ==> readFailed)
      ensures ok ==> cursor < start <= next <= end
      ensures ok ==> Name(Window(cursor, end)) == Got(Window(start, next), Window(next, end))
      ensures !ok && !readFailed ==> Name(Window(cursor, end)).Fail?
    {
      var length;
      next := cursor;
      ok, length, start := NextU32(end, cursor);
      if !ok || length > end - start {
        return false, start, next;
      }
      next := start + length;
      assert Window(start, end)[..length] == Window(start, next);
      assert Window(start, end)[length..] == Window(next, end);
    }

    method NextKindAndIndex(end: nat, cursor: nat) returns (ok: bool, kind: Byte, index: U32, next: nat)
      requires Valid() && cursor <= end <= size == |payload|
      modifies this, block
      ensures Valid() && (old(readFailed) ==> readFailed)
      ensures ok ==> cursor < next <= end
      ensures ok ==> KindAndIndex(Window(cursor, end)) == Got((kind, index), Window(next, end))
      ensures !ok && !readFailed ==> KindAndIndex(Window(cursor, end)).Fail?
    {
      index := 0;
      ok, kind, next := NextByte(end, cursor);
      if ok {
        ok, index, next := NextU32(end, next);
      }
    }

    method SameBytes(start: nat, expected: seq<Byte>) returns (ok: bool, same: bool)
      requires Valid() && start + |expected| <= size == |payload|
      modifies this, block
      ensures Valid() && (old(readFailed) ==> readFailed)
      ensures ok ==> (same <==> Window(start, start + |expected|) == expected)
      ensures !ok ==> readFailed
    {
      ghost var found := Window(start, start + |expected|);
      same := true;
      for index := 0 to |expected|
        invariant Valid() && (old(readFailed) ==> readFailed)
        invariant same <==> found[..index] == expected[..index]
      {
        var present, byte := ByteAt(start + index);
        if !present {
          return false, false;
        }
        assert found[..index + 1] == found[..index] + [byte];
        assert expected[..index + 1] == expected[..index] + [expected[index]];
        if byte != expected[index] {
          same := false;
        }
      }
      assert found[..|expected|] == found && expected[..|expected|] == expected;
      ok := true;
    }

    method NameIs(end: nat, cursor: nat, expected: seq<Byte>) returns (ok: bool, matches: bool, next: nat)
      requires Valid() && cursor <= end <= size == |payload|
      modifies this, block
      ensures Valid() && (old(readFailed) ==> readFailed)
      ensures ok ==> cursor < next <= end && Name(Window(cursor, end)).Got?
      ensures ok ==> Name(Window(cursor, end)).rest == Window(next, end)
      ensures ok ==> (matches <==> Name(Window(cursor, end)).value == expected)
      ensures !ok && !readFailed ==> Name(Window(cursor, end)).Fail?
    {
      var start;
      matches := false;
      ok, start, next := NextSpan(end, cursor);
      if ok {
        matches := next - start == |expected|;
        if matches {
          ok, matches := SameBytes(start, expected);
        }
      }
    }
  }

  /** A number read so far, continued by the rest of its encoding. */
  function Scaled(result: nat, scale: nat, r: Read<nat>): Read<nat> {
    match r case Fail => Fail case Got(v, rest) => Got(Plus(result, scale, v), rest)
  }

  function Plus(result: nat, scale: nat, digits: nat): nat {
    result + scale * digits
  }

  /** The whole number is what has been accumulated, continued at `window`. */
  predicate Continues(number: seq<Byte>, result: nat, scale: nat, window: seq<Byte>, index: nat) {
    index <= 5 && Leb(number, 0) == Scaled(result, scale, Leb(window, index))
  }

  lemma ContinuesStep(number: seq<Byte>, result: nat, scale: nat, octet: Byte, rest: seq<Byte>, index: nat)
    requires index < 5 && !(index == 4 && octet >= 0x10)
    requires Continues(number, result, scale, [octet] + rest, index)
    ensures octet < 0x80 ==> Plus(result, scale, octet) <= U32_MAX
    ensures octet < 0x80 ==> U32At(number) == Got(Plus(result, scale, octet), rest)
    ensures octet >= 0x80 ==> Continues(number, Plus(result, scale, octet - 0x80), scale * 0x80, rest, index + 1)
  {
    assert ([octet] + rest)[1..] == rest;
    if octet >= 0x80 && Leb(rest, index + 1).Got? {
      Distribute(scale, octet - 0x80, Leb(rest, index + 1).value);
    }
  }

  lemma ContinuesNot(number: seq<Byte>, result: nat, scale: nat, window: seq<Byte>, index: nat)
    requires Continues(number, result, scale, window, index)
    requires index < 5 && (window == [] || (index == 4 && window[0] >= 0x10))
    ensures U32At(number).Fail?
  {
    assert Leb(window, index).Fail?;
  }

  lemma Distribute(scale: nat, o: nat, v: nat)
    ensures scale * (o + 0x80 * v) == scale * o + (scale * 0x80) * v
  {
    assert scale * (o + 0x80 * v) == scale * o + scale * (0x80 * v);
    assert scale * (0x80 * v) == (scale * 0x80) * v;
  }
}
