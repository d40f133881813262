/**
 Timers on values: the handle allocator, the choice of the earliest due timer, the
 arithmetic of deadlines and the bytes of a timer event.
 */
module Timers {
  import opened Octets

  type U64 = x: int | 0 <= x < 0x1_0000_0000_0000_0000

  const U64_MAX: U64 := 0xffff_ffff_ffff_ffff

  // ------------------------------------------------------------------ handles

  /** Handles below the next one have been issued; after the last one, all have. */
  predicate Issued(next: U64, handle: U64) {
    handle != 0 && (next == 0 || handle < next)
  }

  /** The next handle in 64 bits: the one after the last is zero, and zero is terminal. */
  function NextHandle(next: U64): U64 {
    if next == 0 || next == U64_MAX then 0 else next + 1
  }

  /** The handles of n allocations in a row, by whichever instances. */
  function Allocations(next: U64, n: nat): (r: seq<U64>)
    ensures |r| == n
    decreases n
  {
    if n == 0 then [] else [next] + Allocations(NextHandle(next), n - 1)
  }

  lemma {:induction false} AllocationsAreFresh(next: U64, n: nat, i: nat)
    requires i < n
    ensures var h := Allocations(next, n)[i]; h == 0 || !Issued(next, h)
    ensures next != 0 && i > 0 ==> Allocations(next, n)[i] != next
    decreases n
  {
    if i > 0 {
      AllocationsAreFresh(NextHandle(next), n - 1, i - 1);
      assert Allocations(next, n)[i] == Allocations(NextHandle(next), n - 1)[i - 1];
    }
  }

  /** No handle is ever issued twice, however many allocations there are. */
  lemma {:induction false} HandlesAreNeverReissued(next: U64, n: nat, i: nat, j: nat)
    requires i < j < n
    ensures var s := Allocations(next, n); s[i] != 0 ==> s[i] != s[j]
    decreases n
  {
    if i == 0 {
      AllocationsAreFresh(next, n, j);
    } else {
      HandlesAreNeverReissued(NextHandle(next), n - 1, i - 1, j - 1);
      assert Allocations(next, n)[i] == Allocations(NextHandle(next), n - 1)[i - 1];
      assert Allocations(next, n)[j] == Allocations(NextHandle(next), n - 1)[j - 1];
    }
  }

  // ------------------------------------------------------------------ deadlines

  datatype Timer = Timer(handle: U64, deadline: U64, period: U32, active: bool)

  const CAPACITY: nat := 8
  const MAX_INTERVAL: U32 := 86_400_000

  /** A timer that a poll may choose; one with the very last deadline never is. */
  predicate Due(t: Timer, now: U64) {
    t.active && t.deadline <= now && t.deadline < U64_MAX
  }

  /** The first of the earliest due timers among the first n, or n. */
  predicate IsSelected(timers: seq<Timer>, n: nat, now: U64, selected: nat)
    requires n <= |timers|
  {
    && selected <= n
    && (selected == n ==> forall i | 0 <= i < n :: !Due(timers[i], now))
    && (selected < n ==>
          && Due(timers[selected], now)
          && (forall i | 0 <= i < n && Due(timers[i], now) :: timers[selected].deadline <= timers[i].deadline)
          && (forall i | 0 <= i < selected && Due(timers[i], now) :: timers[selected].deadline < timers[i].deadline))
  }

  lemma {:induction false} SelectionIsUnique(timers: seq<Timer>, n: nat, now: U64, a: nat, b: nat)
    requires n <= |timers| && IsSelected(timers, n, now, a) && IsSelected(timers, n, now, b)
    ensures a == b
  {
    if a < n {
      assert Due(timers[a], now);
    }
    if b < n {
      assert Due(timers[b], now);
    }
  }

  function Missed(t: Timer, now: U64): nat
    requires t.period > 0 && t.deadline <= now
  {
    (now - t.deadline) / t.period
  }

  /** What the event reports: the missed periods, as far as 32 bits hold them. */
  function Skipped(t: Timer, now: U64): U32
    requires t.deadline <= now
  {
    if t.period == 0 then 0 else if Missed(t, now) > U32_MAX then U32_MAX else Missed(t, now)
  }

  function UntilNext(t: Timer, now: U64): nat
    requires t.period > 0 && t.deadline <= now
  {
    t.period - (now - t.deadline) % t.period
  }

  /** A timer after its event: one-shots end, periodic ones move past the present or end. */
  function Advanced(t: Timer, now: U64): Timer
    requires t.deadline <= now
  {
    if t.period == 0 || now > U64_MAX - UntilNext(t, now) then t.(active := false)
    else t.(deadline := now + UntilNext(t, now))
  }

  /** The arithmetic of a poll on the chosen timer. */
  method Advance(t: Timer, now: U64) returns (next: Timer, skipped: U32)
    requires t.deadline <= now
    ensures next == Advanced(t, now) && skipped == Skipped(t, now)
  {
    next, skipped := t, 0;
    if t.period == 0 {
      next := t.(active := false);
    } else {
      var late: nat, period: nat := now - t.deadline, t.period;
      DivisionSplits(late, period);
      var periodsMissed: nat := late / period;
      skipped := if periodsMissed > U32_MAX then U32_MAX else periodsMissed;
      var untilNext: nat := period - late % period;
      assert periodsMissed == Missed(t, now) && untilNext == UntilNext(t, now);
      next := if now > U64_MAX - untilNext then t.(active := false) else t.(deadline := now + untilNext);
    }
  }

  lemma DivisionSplits(a: nat, p: nat)
    requires p > 0
    ensures a == p * (a / p) + a % p && 0 <= a % p < p && 0 <= a / p
  {
  }

  /** The next deadline lies on the cadence, after the present and at most a period away. */
  lemma {:induction false} CadenceIsKept(t: Timer, now: U64)
    requires t.active && t.period > 0 && t.deadline <= now
    ensures var next := t.deadline + t.period * (1 + Missed(t, now));
            && now < next <= now + t.period
            && (next <= U64_MAX ==> Advanced(t, now) == t.(deadline := next))
            && (next > U64_MAX ==> !Advanced(t, now).active)
  {
    var a: nat, p: nat := now - t.deadline, t.period;
    DivisionSplits(a, p);
    assert p * (1 + a / p) == p + p * (a / p);
  }

  lemma Distribute(p: nat, m: nat, r: nat)
    ensures p * (m + r) == p * m + p * r
  {
  }

  // ------------------------------------------------------------------ event bytes

  /** A number in n bytes, least significant first. */
  function LeBytes(v: nat, n: nat): (r: seq<Byte>)
    ensures |r| == n
  {
    if n == 0 then [] else [v % 0x100] + LeBytes(v / 0x100, n - 1)
  }

  function LeValue(s: seq<Byte>): nat {
    if s == [] then 0 else s[0] + 0x100 * LeValue(s[1..])
  }

  function Power256(n: nat): nat {
    if n == 0 then 1 else 0x100 * Power256(n - 1)
  }

  lemma {:induction false} ValueOfBytes(v: nat, n: nat)
    requires v < Power256(n)
    ensures LeValue(LeBytes(v, n)) == v
    decreases n
  {
    if n > 0 {
      ValueOfBytes(v / 0x100, n - 1);
      assert LeBytes(v, n)[1..] == LeBytes(v / 0x100, n - 1);
    }
  }

  lemma {:induction false} BytesOfValue(s: seq<Byte>)
    ensures LeBytes(LeValue(s), |s|) == s && LeValue(s) < Power256(|s|)
    decreases |s|
  {
    if s != [] {
      BytesOfValue(s[1..]);
      assert LeValue(s) / 0x100 == LeValue(s[1..]) && LeValue(s) % 0x100 == s[0];
      assert s == [s[0]] + s[1..];
    }
  }

  lemma WordSizes()
    ensures Power256(4) == 0x1_0000_0000 && Power256(8) == 0x1_0000_0000_0000_0000
  {
    assert Power256(2) == 0x1_0000;
    assert Power256(6) == 0x1_0000 * Power256(4);
  }

  datatype Event = Event(handle: U64, skipped: U32)

  const EVENT_BYTES: nat := 16
  /** "ECT", version 1 */
  const EVENT_PREFIX: seq<Byte> := [0x45, 0x43, 0x54, 1]

  function EventBytes(e: Event): (r: seq<Byte>)
    ensures |r| == EVENT_BYTES
  {
    EVENT_PREFIX + LeBytes(e.handle, 8) + LeBytes(e.skipped, 4)
  }

  lemma ThreeParts(s: seq<Byte>, a: seq<Byte>, b: seq<Byte>, c: seq<Byte>)
    requires |s| == EVENT_BYTES && |a| == 4 && |b| == 8 && s[..4] == a && s[4..12] == b && s[12..] == c
    ensures s == a + b + c
  {
  }

  /** The guest's reading of an event. */
  function EventOf(bytes: seq<Byte>): Option<Event> {
    if |bytes| != EVENT_BYTES || bytes[..4] != EVENT_PREFIX || LeValue(bytes[4..12]) == 0 then None
    else
      BytesOfValue(bytes[4..12]);
      BytesOfValue(bytes[12..]);
      WordSizes();
      Some(Event(LeValue(bytes[4..12]), LeValue(bytes[12..])))
  }

  /** The guest reads back the handle and the count of every event the host writes, */
  lemma EventRoundTrip(e: Event)
    requires e.handle != 0
    ensures EventOf(EventBytes(e)) == Some(e)
  {
    var b := EventBytes(e);
    WordSizes();
    ValueOfBytes(e.handle, 8);
    ValueOfBytes(e.skipped, 4);
    assert b[..4] == EVENT_PREFIX && b[4..12] == LeBytes(e.handle, 8) && b[12..] == LeBytes(e.skipped, 4);
  }

  /** and it reads nothing else. */
  lemma OnlyEventsAreRead(bytes: seq<Byte>)
    requires EventOf(bytes).Some?
    ensures bytes == EventBytes(EventOf(bytes).value) && EventOf(bytes).value.handle != 0
  {
    BytesOfValue(bytes[4..12]);
    BytesOfValue(bytes[12..]);
    assert bytes == bytes[..4] + bytes[4..12] + bytes[12..];
  }

  /** Shifts the bytes of a number out, least significant first. */
  method PutLe(destination: array<Byte>, offset: nat, v: nat, n: nat)
    requires offset + n <= destination.Length
    modifies destination
    ensures destination[offset..offset + n] == LeBytes(v, n)
    ensures forall i | 0 <= i < destination.Length && !(offset <= i < offset + n) ::
            destination[i] == old(destination[i])
  {
    var rest := v;
    for index := 0 to n
      invariant LeBytes(v, n) == destination[offset..offset + index] + LeBytes(rest, n - index)
      invariant forall i | 0 <= i < destination.Length && !(offset <= i < offset + index) ::
                  destination[i] == old(destination[i])
    {
      ghost var done := destination[offset..offset + index];
      destination[offset + index] := rest % 0x100;
      assert destination[offset..offset + index + 1] == done + [rest % 0x100];
      assert done + LeBytes(rest, n - index) == done + [rest % 0x100] + LeBytes(rest / 0x100, n - index - 1);
      rest := rest / 0x100;
    }
  }

  lemma Rescale(scale: nat, b: nat, tail: nat)
    ensures scale * (b + 0x100 * tail) == scale * b + (scale * 0x100) * tail
  {
    Distribute(scale, b, 0x100 * tail);
    assert scale * (0x100 * tail) == (scale * 0x100) * tail;
  }

  method GetLe(bytes: seq<Byte>) returns (v: nat)
    ensures v == LeValue(bytes)
  {
    var scale: nat := 1;
    v := 0;
    for index := 0 to |bytes|
      invariant LeValue(bytes) == v + scale * LeValue(bytes[index..])
    {
      var b: nat, tail: nat := bytes[index], LeValue(bytes[index + 1..]);
      assert bytes[index..][1..] == bytes[index + 1..];
      Rescale(scale, b, tail);
      v := v + scale * b;
      scale := scale * 0x100;
    }
    assert bytes[|bytes|..] == [];
  }

  /** The guest's decoder. */
  method DecodeEvent(bytes: seq<Byte>) returns (event: Option<Event>)
    ensures event == EventOf(bytes)
  {
    if |bytes| != EVENT_BYTES || bytes[0] != 0x45 || bytes[1] != 0x43 || bytes[2] != 0x54 || bytes[3] != 1 {
      assert |bytes| == EVENT_BYTES ==> bytes[..4] != EVENT_PREFIX;
      return None;
    }
    assert bytes[..4] == EVENT_PREFIX;
    var handle := GetLe(bytes[4..12]);
    var skipped := GetLe(bytes[12..]);
    BytesOfValue(bytes[4..12]);
    BytesOfValue(bytes[12..]);
    WordSizes();
    return if handle == 0 then None else Some(Event(handle, skipped));
  }
}
