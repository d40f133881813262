/**
 The device's reading of a manifest: one cursor moving over the text, and the fields it
 leaves behind.
 */
module ManifestReader {
  import opened Octets
  import opened WasmFormat
  import opened WasmCapabilities
  import opened Manifest

  // ------------------------------------------------------------------ capabilities by name

  function CapabilityName(c: Capability): seq<Byte> {
    match c
    case MonotonicTime => Ascii("monotonic-time")
    case Logging => Ascii("log")
    case Timer => Ascii("timer")
  }

  function CapabilityNamed(id: seq<Byte>): Option<Capability> {
    if id == CapabilityName(MonotonicTime) then Some(MonotonicTime)
    else if id == CapabilityName(Logging) then Some(Logging)
    else if id == CapabilityName(Timer) then Some(Timer)
    else None
  }

  lemma NamesAreDistinct(c: Capability)
    ensures CapabilityNamed(CapabilityName(c)) == Some(c)
  {
    assert |CapabilityName(MonotonicTime)| == 14 && |CapabilityName(Logging)| == 3 && |CapabilityName(Timer)| == 5;
  }

  function Mask(list: seq<seq<Byte>>): Bits {
    if list == [] then {}
    else
      var front := Mask(list[..|list| - 1]);
      match CapabilityNamed(list[|list| - 1]) case None => front case Some(c) => front + {CapabilityBit(c)}
  }

  predicate HasUnknown(list: seq<seq<Byte>>) {
    list != [] && (HasUnknown(list[..|list| - 1]) || CapabilityNamed(list[|list| - 1]).None?)
  }

  lemma {:induction false} UnknownMeansListed(list: seq<seq<Byte>>)
    ensures HasUnknown(list) <==> exists id | id in list :: CapabilityNamed(id).None?
  {
    if list != [] {
      var front, last := list[..|list| - 1], list[|list| - 1];
      UnknownMeansListed(front);
      assert list == front + [last];
    }
  }

  lemma NamedBy(id: seq<Byte>, c: Capability)
    ensures CapabilityNamed(id) == Some(c) <==> id == CapabilityName(c)
  {
    NamesAreDistinct(c);
  }

  /** The mask says which capabilities are asked for by name, and nothing else. */
  lemma {:induction false} MaskMeansListed(list: seq<seq<Byte>>, c: Capability)
    ensures Granted(Mask(list), c) <==> CapabilityName(c) in list
    ensures Mask(list) <= CAP_ALL
  {
    if list != [] {
      var front, last := list[..|list| - 1], list[|list| - 1];
      MaskMeansListed(front, c);
      assert list == front + [last];
      NamedBy(last, c);
      match CapabilityNamed(last)
      case None =>
      case Some(d) =>
        assert CapabilityBit(d) == CapabilityBit(c) ==> c == d;
    }
  }

  // ------------------------------------------------------------------ the cursor

  datatype Slice = Slice(offset: nat, size: nat)

  predicate Within(sl: Slice, data: seq<Byte>) {
    sl.offset + sl.size <= |data|
  }

  function At(sl: Slice, data: seq<Byte>): seq<Byte>
    requires Within(sl, data)
  {
    data[sl.offset..sl.offset + sl.size]
  }

  lemma PrefixBySlice(s: seq<Byte>, t: seq<Byte>)
    ensures t <= s <==> |t| <= |s| && s[..|t|] == t
  {
  }

  lemma ConcatMatches(x: seq<Byte>, y: seq<Byte>, a: seq<Byte>, b: seq<Byte>)
    requires |x| == |a|
    ensures x + y == a + b <==> x == a && y == b
  {
    assert (x + y)[..|x|] == x && (x + y)[|x|..] == y;
    assert (a + b)[..|a|] == a && (a + b)[|a|..] == b;
  }

  /** Two texts after each other are taken like their concatenation. */
  lemma LiteralJoin(s: seq<Byte>, a: seq<Byte>, b: seq<Byte>)
    ensures Literal(s, a + b) ==
            match Literal(s, a) case Fail => Fail case Got(_, more) => Literal(more, b)
  {
    PrefixBySlice(s, a);
    PrefixBySlice(s, a + b);
    if |a| <= |s| {
      var more := s[|a|..];
      PrefixBySlice(more, b);
      if |b| <= |more| {
        assert s[..|a + b|] == s[..|a|] + more[..|b|] && s[|a + b|..] == more[|b|..];
        ConcatMatches(s[..|a|], more[..|b|], a, b);
      }
    }
  }

  /** A text in the middle of the data, by offsets. */
  lemma LiteralAt(data: seq<Byte>, cursor: nat, text: seq<Byte>)
    requires cursor <= |data|
    ensures Literal(data[cursor..], text) ==
            if |text| <= |data| - cursor && data[cursor..cursor + |text|] == text then Got((), data[cursor + |text|..])
            else Fail
  {
    PrefixBySlice(data[cursor..], text);
    if |text| <= |data| - cursor {
      assert data[cursor..][..|text|] == data[cursor..cursor + |text|];
      assert data[cursor..][|text|..] == data[cursor + |text|..];
    }
  }

  class Json {
    const data: seq<Byte>
    var cursor: nat

    constructor (data: seq<Byte>)
      ensures this.data == data && Valid() && Window() == data
    {
      this.data := data;
      cursor := 0;
    }

    predicate Valid()
      reads `cursor
    {
      cursor <= |data|
    }

    /** The text still to be read. */
    function Window(): seq<Byte>
      reads `cursor
      requires Valid()
    {
      data[cursor..]
    }

    method Take(text: seq<Byte>) returns (ok: bool)
      requires Valid()
      modifies `cursor
      ensures Valid()
      ensures ok ==> Literal(old(Window()), text) == Got((), Window())
      ensures !ok ==> Literal(old(Window()), text).Fail? && cursor == old(cursor)
    {
      LiteralAt(data, cursor, text);
      if |text| > |data| - cursor || data[cursor..cursor + |text|] != text {
        return false;
      }
      cursor := cursor + |text|;
      ok := true;
    }

    /** Punctuation, then a key and its colon. */
    method Key(f: Mark) returns (ok: bool)
      requires Valid()
      modifies `cursor
      ensures Valid()
      ensures ok ==> Literal(old(Window()), Prefix(f)) == Got((), Window())
      ensures !ok ==> Literal(old(Window()), Prefix(f)).Fail?
    {
      ghost var s := Window();
      ok := Take(f.open);
      LiteralJoin(s, f.open, [QUOTE] + f.key + [QUOTE, 0x3a]);
      if ok {
        ok := TakeKey(f.key);
      }
    }

    method TakeKey(key: seq<Byte>) returns (ok: bool)
      requires Valid()
      modifies `cursor
      ensures Valid()
      ensures ok ==> Literal(old(Window()), [QUOTE] + key + [QUOTE, 0x3a]) == Got((), Window())
      ensures !ok ==> Literal(old(Window()), [QUOTE] + key + [QUOTE, 0x3a]).Fail?
    {
      ghost var s := Window();
      LiteralJoin(s, [QUOTE] + key, [QUOTE, 0x3a]);
      LiteralJoin(s, [QUOTE], key);
      ok := Take([QUOTE]);
      if ok {
        ok := Take(key);
        if ok {
          ok := Take([QUOTE, 0x3a]);
        }
      }
    }

    /** A number below 2^32 in its only spelling; the 64-bit accumulator never overflows. */
    method Uint32(allowZero: bool) returns (ok: bool, number: U32)
      requires Valid()
      modifies `cursor
      ensures Valid()
      ensures ok ==> Number(old(Window()), allowZero) == Got(number, Window())
      ensures !ok ==> Number(old(Window()), allowZero).Fail?
    {
      ghost var s, begin := Window(), cursor;
      if cursor == |data| {
        return false, 0;
      }
      var value: nat, digits: nat, startsZero := 0, 0, data[cursor] == ZERO;
      while cursor < |data| && IsDigit(data[cursor])
        invariant Valid() && cursor == begin + digits && digits <= 10
        invariant Digits(s[..digits]) && value == Value(s[..digits]) && value <= U32_MAX
        decreases |data| - cursor
      {
        assert s[digits] == data[cursor];
        assert s[..digits + 1][..digits] == s[..digits] && s[..digits + 1][digits] == s[digits];
        assert value * 10 + 9 < 0x1_0000_0000_0000_0000;
        value := value * 10 + (data[cursor] - ZERO);
        cursor := cursor + 1;
        digits := digits + 1;
        if digits > 10 || value > U32_MAX {
          TooLarge(s, digits, allowZero);
          return false, 0;
        }
      }
      assert s[digits..] == Window();
      DigitCountIs(s, digits);
      if digits == 0 || (startsZero && digits != 1) || (!allowZero && value == 0) {
        return false, 0;
      }
      return true, value;
    }

    /** As many identifier bytes as there are, if their hyphens are in place. */
    method ScanIdentifier() returns (ok: bool, size: nat)
      requires Valid()
      modifies `cursor
      ensures Valid()
      ensures ok ==> size == IdCount(old(Window())) && Identifier(old(Window())[..size]) && cursor == old(cursor) + size
      ensures !ok ==> !Identifier(old(Window())[..IdCount(old(Window()))])
    {
      ghost var rest := Window();
      var begin, previousHyphen := cursor, false;
      while cursor < |data| && IdByte(data[cursor])
        invariant Valid() && begin <= cursor
        invariant forall i | 0 <= i < cursor - begin :: IdByte(rest[i])
        invariant cursor > begin ==> rest[0] != HYPHEN && (previousHyphen <==> rest[cursor - begin - 1] == HYPHEN)
        invariant cursor == begin ==> !previousHyphen
        invariant forall i | 0 < i < cursor - begin && rest[i] == HYPHEN :: rest[i - 1] != HYPHEN
        decreases |data| - cursor
      {
        var byte := data[cursor];
        assert byte == rest[cursor - begin];
        if byte == HYPHEN && (cursor == begin || previousHyphen) {
          BadHyphen(rest, cursor - begin);
          return false, 0;
        }
        previousHyphen := byte == HYPHEN;
        cursor := cursor + 1;
      }
      size := cursor - begin;
      IdCountIs(rest, size);
      ok := cursor != begin && !previousHyphen;
    }

    /** An identifier between quotes; the slice refers to the text. */
    method TakeIdentifier() returns (ok: bool, id: Slice)
      requires Valid()
      modifies `cursor
      ensures Valid()
      ensures ok ==> Within(id, data) && QuotedId(old(Window())) == Got(At(id, data), Window())
      ensures !ok ==> QuotedId(old(Window())).Fail?
    {
      ghost var s := Window();
      id := Slice(0, 0);
      ok := Take([QUOTE]);
      if !ok {
        assert s != [] && s[0] == QUOTE ==> [QUOTE] <= s;
        return;
      }
      ghost var rest := Window();
      var begin, size := cursor, 0;
      ok, size := ScanIdentifier();
      if !ok {
        QuotedIdParts(s, rest);
        return;
      }
      id := Slice(begin, size);
      assert At(id, data) == rest[..size];
      ghost var tail := Window();
      assert tail == rest[size..];
      ok := Take([QUOTE]);
      QuotedIdParts(s, rest);
    }

    method TakeHexByte() returns (ok: bool, octet: Byte)
      requires Valid() && cursor + 2 <= |data|
      modifies `cursor
      ensures Valid() && cursor <= old(cursor) + 2
      ensures ok ==> HexByte(old(Window())) == Got(octet, Window()) && cursor == old(cursor) + 2
      ensures !ok ==> HexByte(old(Window())).Fail?
    {
      ghost var s := Window();
      assert s[0] == data[cursor] && s[1] == data[cursor + 1];
      var high, low := HexValue(data[cursor]), HexValue(data[cursor + 1]);
      if high.None? || low.None? {
        return false, 0;
      }
      cursor := cursor + 2;
      assert Window() == s[2..];
      return true, HexOctet(high.value, low.value);
    }

    method TakeSha(output: array<Byte>) returns (ok: bool)
      requires Valid() && output.Length == 32
      modifies `cursor, output
      ensures Valid()
      ensures ok ==> Sha(old(Window())) == Got(output[..], Window())
      ensures !ok ==> Sha(old(Window())).Fail?
    {
      ghost var s := Window();
      ok := Take([QUOTE]);
      if !ok {
        assert s != [] && s[0] == QUOTE ==> [QUOTE] <= s;
        return;
      }
      ghost var rest, begin := Window(), cursor;
      assert rest == s[1..];
      ghost var all := HexBytes(rest, 32);
      if |data| - cursor < 65 {
        HexLength(rest, 32);
        return false;
      }
      HexStart(rest);
      var index := 0;
      while index < 32
        invariant Valid() && index <= 32 && cursor == begin + 2 * index && begin + 65 <= |data|
        invariant HexPending(all, output[..index], Window())
      {
        ghost var before, window := output[..index], Window();
        var good, octet := TakeHexByte();
        HexStep(all, before, window);
        if !good {
          return false;
        }
        output[index] := octet;
        assert output[..index + 1] == before + [octet];
        index := index + 1;
      }
      HexStep(all, output[..32], Window());
      assert output[..32] == output[..];
      ghost var tail := Window();
      ok := Take([QUOTE]);
      assert tail != [] && tail[0] == QUOTE <==> [QUOTE] <= tail;
    }

    /** The list of capabilities; a bracket is looked for before each of at most sixteen items. */
    method TakeCapabilities(f: Mark) returns (ok: bool, mask: Bits, unknown: bool, ghost l: ItemList)
      requires Valid()
      modifies `cursor
      ensures Valid()
      ensures ok ==> ListField(old(Window()), f) == Got(l, Window())
      ensures ok ==> mask == Mask(l.list) && unknown == HasUnknown(l.list)
      ensures !ok ==> ListField(old(Window()), f).Fail?
    {
      ghost var s := Window();
      mask, unknown, l := {}, false, ItemList([], false);
      LiteralJoin(s, Prefix(f), [0x5b]);
      ok := Key(f);
      if ok {
        ok := Take([0x5b]);
        if ok {
          ok, mask, unknown, l := TakeItems();
        }
      }
    }

    method TakeItems() returns (ok: bool, mask: Bits, unknown: bool, ghost l: ItemList)
      requires Valid()
      modifies `cursor
      ensures Valid()
      ensures ok ==> Items(QuotedId, old(Window()), None, CAPABILITIES_MAX) == Got(l, Window())
      ensures ok ==> mask == Mask(l.list) && unknown == HasUnknown(l.list)
      ensures !ok ==> Items(QuotedId, old(Window()), None, CAPABILITIES_MAX).Fail?
    {
      ghost var all, list := Items(QuotedId, Window(), None, CAPABILITIES_MAX), [];
      mask, unknown, l := {}, false, ItemList([], false);
      var previous: Option<Slice>, closed := None, false;
      ItemsStart(QuotedId, Window());
      for count := 0 to CAPABILITIES_MAX
        invariant Valid() && |list| == count
        invariant previous.Some? <==> count > 0
        invariant previous.Some? ==> Within(previous.value, data) && At(previous.value, data) == list[count - 1]
        invariant ItemsPending(QuotedId, all, list, Window())
        invariant mask == Mask(list) && unknown == HasUnknown(list)
      {
        ghost var window := Window();
        ItemsTurn(QuotedId, all, list, window);
        closed := Take([CLOSE]);
        if closed {
          l := ItemList(list, count > 0);
          return true, mask, unknown, l;
        }
        var found, id := TakeIdentifier();
        if !found {
          return false, mask, unknown, l;
        }
        ghost var name, more := At(id, data), Window();
        MaskStep(list, name);
        var added := AddCapability(mask, unknown, At(id, data));
        mask, unknown := added.0, added.1;
        if previous.Some? && !ComesBefore(At(previous.value, data), At(id, data)) {
          return false, mask, unknown, l;
        }
        closed := Take([CLOSE]);
        if closed {
          l := ItemList(list + [name], false);
          return true, mask, unknown, l;
        }
        var comma := Take([COMMA]);
        if !comma {
          return false, mask, unknown, l;
        }
        previous, list := Some(id), list + [name];
      }
      ItemsTurn(QuotedId, all, list, Window());
      ok := false;
    }

    method TakeNumber(f: Mark, allowZero: bool) returns (ok: bool, number: U32)
      requires Valid()
      modifies `cursor
      ensures Valid()
      ensures ok ==> NumberField(old(Window()), f, allowZero) == Got(number, Window())
      ensures !ok ==> NumberField(old(Window()), f, allowZero).Fail?
    {
      number := 0;
      ok := Key(f);
      if ok {
        ok, number := Uint32(allowZero);
      }
    }

    method TakeName(f: Mark) returns (ok: bool, id: Slice)
      requires Valid()
      modifies `cursor
      ensures Valid()
      ensures ok ==> Within(id, data) && IdField(old(Window()), f) == Got(At(id, data), Window())
      ensures !ok ==> IdField(old(Window()), f).Fail?
    {
      id := Slice(0, 0);
      ok := Key(f);
      if ok {
        ok, id := TakeIdentifier();
      }
    }

    method TakeTriple(a: Mark, b: Mark, c: Mark, allowZero: bool) returns (ok: bool, v: Triple)
      requires Valid()
      modifies `cursor
      ensures Valid()
      ensures ok ==> ReadTriple(old(Window()), a, b, c, allowZero) == Got(v, Window())
      ensures !ok ==> ReadTriple(old(Window()), a, b, c, allowZero).Fail?
    {
      var x, y, z := 0, 0, 0;
      TripleParts(Window(), a, b, c, allowZero);
      ok, x := TakeNumber(a, false);
      if ok {
        ok, y := TakeNumber(b, false);
        if ok {
          ok, z := TakeNumber(c, allowZero);
        }
      }
      v := Triple(x, y, z);
    }

    /** The six limits; only the last may be zero. */
    method TakeLimits(t: Table) returns (ok: bool, l: Limits)
      requires Valid()
      modifies `cursor
      ensures Valid()
      ensures ok ==> ReadLimits(t, old(Window())) == Got(l, Window())
      ensures !ok ==> ReadLimits(t, old(Window())).Fail?
    {
      l := Limits(0, 0, 0, 0, 0, 0);
      LimitsParts(t, Window());
      var v, w;
      ok, v := TakeTriple(t.eventQueue, t.timeout, t.budget, false);
      if ok {
        ok, w := TakeTriple(t.memory, t.stack, t.storage, true);
        l := Limits(v.x, v.y, v.z, w.x, w.y, w.z);
      }
    }

    method TakeDigest(f: Mark, output: array<Byte>) returns (ok: bool)
      requires Valid() && output.Length == 32
      modifies `cursor, output
      ensures Valid()
      ensures ok ==> DigestField(old(Window()), f) == Got(output[..], Window())
      ensures !ok ==> DigestField(old(Window()), f).Fail?
    {
      ok := Key(f);
      if ok {
        ok := TakeSha(output);
      }
    }

    method TakePair(a: Mark, b: Mark) returns (ok: bool, v: Pair)
      requires Valid()
      modifies `cursor
      ensures Valid()
      ensures ok ==> ReadPair(old(Window()), a, b) == Got(v, Window())
      ensures !ok ==> ReadPair(old(Window()), a, b).Fail?
    {
      var x, y := 0, 0;
      ok, x := TakeNumber(a, false);
      if ok {
        ok, y := TakeNumber(b, false);
      }
      v := Pair(x, y);
    }

    method TakeBounds(t: Table) returns (ok: bool, l: Limits)
      requires Valid()
      modifies `cursor
      ensures Valid()
      ensures ok ==> ReadBounds(t, old(Window())) == Got(l, Window())
      ensures !ok ==> ReadBounds(t, old(Window())).Fail?
    {
      BoundsParts(t, Window());
      ok, l := TakeLimits(t);
      if ok {
        ok := TakeFormat(t.format);
      }
    }

    /** The format version, which must be the only one there is. */
    method TakeFormat(f: Mark) returns (ok: bool)
      requires Valid()
      modifies `cursor
      ensures Valid()
      ensures ok ==> ReadFormat(old(Window()), f) == Got((), Window())
      ensures !ok ==> ReadFormat(old(Window()), f).Fail?
    {
      var format;
      ok, format := TakeNumber(f, false);
      ok := ok && format == FORMAT_VERSION;
    }

    method TakeVersions(t: Table) returns (ok: bool, v: Versions)
      requires Valid()
      modifies `cursor
      ensures Valid()
      ensures ok ==> ReadVersions(t, old(Window())) == Got(v, Window())
      ensures !ok ==> ReadVersions(t, old(Window())).Fail?
    {
      var p, limits := Pair(0, 0), Limits(0, 0, 0, 0, 0, 0);
      ok, p := TakePair(t.schema, t.abi);
      if ok {
        ok, limits := TakeBounds(t);
      }
      v := Versions(p.x, p.y, limits);
    }

    /** The payload's digest and its size, which must be within the device's limit. */
    method TakePayload(t: Table, maxWasm: nat) returns (ok: bool, p: Payload)
      requires Valid()
      modifies `cursor
      ensures Valid()
      ensures ok ==> ReadPayload(t, old(Window())) == Got(p, Window()) && p.size <= maxWasm
      ensures !ok && ReadPayload(t, old(Window())).Got? ==> ReadPayload(t, old(Window())).value.size > maxWasm
    {
      p := Payload(ZERO_DIGEST, 0);
      PayloadParts(t, Window());
      var size;
      var digest := new Byte[32](_ => 0);
      ok := TakeDigest(t.digest, digest);
      if !ok { return; }
      ok, size := TakeNumber(t.size, false);
      if !ok || size < 8 || size > maxWasm { return false, p; }
      p := Payload(digest[..], size);
    }

    method TakeHead(t: Table, maxWasm: nat) returns (ok: bool, h: Head)
      requires Valid()
      modifies `cursor
      ensures Valid()
      ensures ok ==> ReadHead(t, old(Window())) == Got(h, Window()) && h.payload.size <= maxWasm
      ensures !ok && ReadHead(t, old(Window())).Got? ==> ReadHead(t, old(Window())).value.payload.size > maxWasm
    {
      h := NO_HEAD;
      ghost var s := Window();
      var v, p;
      ok, v := TakeVersions(t);
      if !ok {
        HeadParts(t, s);
        return;
      }
      ok, p := TakePayload(t, maxWasm);
      h := Head(v, p);
      HeadParts(t, s);
    }
  }

  lemma TripleParts(s: seq<Byte>, a: Mark, b: Mark, c: Mark, allowZero: bool)
    ensures var r := ReadTriple(s, a, b, c, allowZero);
            match NumberField(s, a, false)
            case Fail => r.Fail?
            case Got(x, s1) =>
              match NumberField(s1, b, false)
              case Fail => r.Fail?
              case Got(y, s2) =>
                match NumberField(s2, c, allowZero)
                case Fail => r.Fail?
                case Got(z, rest) => r == Got(Triple(x, y, z), rest)
  {
  }

  lemma LimitsParts(t: Table, s: seq<Byte>)
    ensures var r := ReadLimits(t, s);
            match ReadTriple(s, t.eventQueue, t.timeout, t.budget, false)
            case Fail => r.Fail?
            case Got(v, more) =>
              match ReadTriple(more, t.memory, t.stack, t.storage, true)
              case Fail => r.Fail?
              case Got(w, rest) => r == Got(Limits(v.x, v.y, v.z, w.x, w.y, w.z), rest)
  {
  }

  lemma PayloadParts(t: Table, s: seq<Byte>)
    ensures var r := ReadPayload(t, s);
            match DigestField(s, t.digest)
            case Fail => r.Fail?
            case Got(digest, more) =>
              match NumberField(more, t.size, false)
              case Fail => r.Fail?
              case Got(size, rest) => if size < 8 then r.Fail? else r == Got(Payload(digest, size), rest)
  {
  }

  lemma HeadParts(t: Table, s: seq<Byte>)
    ensures ReadVersions(t, s).Fail? ==> ReadHead(t, s).Fail?
    ensures ReadVersions(t, s).Got? && ReadPayload(t, ReadVersions(t, s).rest).Fail? ==> ReadHead(t, s).Fail?
    ensures ReadVersions(t, s).Got? && ReadPayload(t, ReadVersions(t, s).rest).Got? ==>
              var p := ReadPayload(t, ReadVersions(t, s).rest);
              ReadHead(t, s) == Got(Head(ReadVersions(t, s).value, p.value), p.rest)
  {
  }

  const CLASSIC := Ascii("wamr-classic-v1")

  /** What the device keeps of a manifest: numbers, slices of its text, and capability bits. */
  datatype Fields = Fields(
    head: Head, productId: Slice, productVersion: Slice, requested: Bits, unknown: bool, classic: bool)

  const NO_HEAD := Head(Versions(0, 0, Limits(0, 0, 0, 0, 0, 0)), Payload(ZERO_DIGEST, 0))
  const NO_FIELDS := Fields(NO_HEAD, Slice(0, 0), Slice(0, 0), {}, false, false)

  predicate ManifestAccepted(t: Table, data: seq<Byte>, keyId: seq<Byte>, maxWasm: nat) {
    Parse(t, data).Some? && Parse(t, data).value.record.keyId == keyId
      && Parse(t, data).value.record.wasmSize <= maxWasm
  }

  predicate Describes(f: Fields, data: seq<Byte>, m: Record) {
    && f.head == HeadOf(m)
    && Within(f.productId, data) && At(f.productId, data) == m.productId
    && Within(f.productVersion, data) && At(f.productVersion, data) == m.productVersion
    && f.requested == Mask(m.capabilities) && f.unknown == HasUnknown(m.capabilities)
    && f.classic == (m.profile == CLASSIC)
  }

  /** The names the device keeps agree with those in the text. */
  predicate NamesKept(f: Fields, data: seq<Byte>, n: Names) {
    && Within(f.productId, data) && At(f.productId, data) == n.productId
    && Within(f.productVersion, data) && At(f.productVersion, data) == n.productVersion
    && f.requested == Mask(n.capabilities) && f.unknown == HasUnknown(n.capabilities)
    && f.classic == (n.profile == CLASSIC)
  }

  method TakeIdentity(t: Table, json: Json) returns (ok: bool, id: Slice, version: Slice)
    requires json.Valid()
    modifies json`cursor
    ensures json.Valid()
    ensures ok ==> Within(id, json.data) && Within(version, json.data)
    ensures ok ==>
              ReadIdentity(t, old(json.Window())) ==
                Got(Identity(At(id, json.data), At(version, json.data)), json.Window())
    ensures !ok ==> ReadIdentity(t, old(json.Window())).Fail?
  {
    version := Slice(0, 0);
    ok, id := json.TakeName(t.productId);
    if ok {
      ok, version := json.TakeName(t.productVersion);
    }
  }

  method TakeRequest(
    t: Table, json: Json)
    returns (ok: bool, mask: Bits, unknown: bool, profile: Slice, ghost l: ItemList)
    requires json.Valid()
    modifies json`cursor
    ensures json.Valid()
    ensures ok ==> Within(profile, json.data) && mask == Mask(l.list) && unknown == HasUnknown(l.list)
    ensures ok ==> ReadRequest(t, old(json.Window())) == Got(Request(l, At(profile, json.data)), json.Window())
    ensures !ok ==> ReadRequest(t, old(json.Window())).Fail?
  {
    profile := Slice(0, 0);
    ok, mask, unknown, l := json.TakeCapabilities(t.capabilities);
    if ok {
      ok, profile := json.TakeName(t.profile);
    }
  }

  method TakeSigner(t: Table, json: Json, keyId: seq<Byte>) returns (ok: bool)
    requires json.Valid()
    modifies json`cursor
    ensures json.Valid()
    ensures ok ==> ReadSigner(t, old(json.Window())) == Got(keyId, json.Window())
    ensures !ok && ReadSigner(t, old(json.Window())).Got? ==> ReadSigner(t, old(json.Window())).value != keyId
  {
    var key;
    ok, key := json.TakeName(t.keyId);
    if ok {
      ok := At(key, json.data) == keyId;
      if ok {
        ok := json.Take(END);
      }
    }
  }

  lemma NamesParts(t: Table, s: seq<Byte>)
    ensures var a := ReadIdentity(t, s);
            ReadNames(t, s) == if a.Fail? then Fail
                               else
                                 var b := ReadRequest(t, a.rest);
                                 if b.Fail? then Fail
                                 else
                                   var c := ReadSigner(t, b.rest);
                                   if c.Fail? then Fail else Got(JoinNames(a.value, b.value, c.value), c.rest)
  {
  }

  /** The second half, for the expected signing key. */
  method TakeNames(t: Table, json: Json, h: Head, keyId: seq<Byte>) returns (ok: bool, f: Fields, ghost n: Names)
    requires json.Valid()
    modifies json`cursor
    ensures json.Valid() && f.head == h
    ensures ok ==>
              ReadNames(t, old(json.Window())) == Got(n, json.Window()) && n.keyId == keyId
                && NamesKept(f, json.data, n)
    ensures !ok && ReadNames(t, old(json.Window())).Got? ==> ReadNames(t, old(json.Window())).value.keyId != keyId
  {
    f, n := NO_FIELDS.(head := h), Names([], [], [], false, [], []);
    NamesParts(t, json.Window());
    var id, version;
    ok, id, version := TakeIdentity(t, json);
    if ok {
      var mask, unknown, profile;
      ghost var l;
      ok, mask, unknown, profile, l := TakeRequest(t, json);
      if ok {
        ok := TakeSigner(t, json, keyId);
        f := Fields(h, id, version, mask, unknown, At(profile, json.data) == CLASSIC);
        n := JoinNames(Identity(At(id, json.data), At(version, json.data)), Request(l, At(profile, json.data)), keyId);
      }
    }
  }

  /** How far the reading of the second half got. */
  datatype Half = NoNames | Trailing(n: Names) | Complete(n: Names)

  predicate ReachedNames(t: Table, s: seq<Byte>, keyId: seq<Byte>, half: Half, rest: seq<Byte>) {
    match half
    case NoNames => ReadNames(t, s).Got? ==> ReadNames(t, s).value.keyId != keyId
    case Trailing(n) => ReadNames(t, s) == Got(n, rest) && rest != []
    case Complete(n) => ReadNames(t, s) == Got(n, rest) && n.keyId == keyId && rest == []
  }

  method FinishManifest(t: Table, json: Json, h: Head, keyId: seq<Byte>)
    returns (ok: bool, f: Fields, ghost half: Half, ghost rest: seq<Byte>)
    requires json.Valid()
    modifies json`cursor
    ensures ReachedNames(t, old(json.Window()), keyId, half, rest) && (ok <==> half.Complete?)
    ensures ok ==> NamesKept(f, json.data, half.n) && f.head == h
  {
    ghost var n;
    half, rest := NoNames, [];
    ok, f, n := TakeNames(t, json, h, keyId);
    if ok {
      rest := json.Window();
      ok := json.cursor == |json.data|;
      assert ok <==> rest == [];
      half := if ok then Complete(n) else Trailing(n);
    }
  }

  /** How far the reading of a manifest got. */
  datatype Progress = NoHead | After(h: Head, more: seq<Byte>, half: Half)

  predicate Reached(t: Table, data: seq<Byte>, keyId: seq<Byte>, maxWasm: nat, p: Progress, rest: seq<Byte>) {
    match p
    case NoHead => ReadHead(t, data).Got? ==> ReadHead(t, data).value.payload.size > maxWasm
    case After(h, more, half) =>
      ReadHead(t, data) == Got(h, more) && h.payload.size <= maxWasm && ReachedNames(t, more, keyId, half, rest)
  }

  predicate IsComplete(p: Progress) {
    p.After? && p.half.Complete?
  }

  lemma ParseParts(t: Table, data: seq<Byte>)
    ensures ReadHead(t, data).Fail? ==> Parse(t, data).None?
    ensures ReadHead(t, data).Got? ==>
              var r, q := ReadHead(t, data), ReadNames(t, ReadHead(t, data).rest);
              Parse(t, data) == if q.Got? && q.rest == [] then Some(Join(r.value, q.value)) else None
  {
  }

  lemma Accepts(
    t: Table, data: seq<Byte>, keyId: seq<Byte>, maxWasm: nat, h: Head, more: seq<Byte>, n: Names, f: Fields)
    requires ReadHead(t, data) == Got(h, more) && h.payload.size <= maxWasm
    requires ReadNames(t, more) == Got(n, []) && n.keyId == keyId
    requires NamesKept(f, data, n) && f.head == h
    ensures ManifestAccepted(t, data, keyId, maxWasm)
    ensures Describes(f, data, Parse(t, data).value.record)
  {
    ParseParts(t, data);
    JoinKeeps(h, n);
    NamesDescribe(f, data, h, n);
  }

  lemma Refuses(t: Table, data: seq<Byte>, keyId: seq<Byte>, maxWasm: nat, p: Progress, rest: seq<Byte>)
    requires Reached(t, data, keyId, maxWasm, p, rest) && !IsComplete(p)
    ensures !ManifestAccepted(t, data, keyId, maxWasm)
  {
    ParseParts(t, data);
    if Parse(t, data).Some? {
      JoinKeeps(ReadHead(t, data).value, ReadNames(t, ReadHead(t, data).rest).value);
    }
  }

  method TakeManifest(t: Table, data: seq<Byte>, keyId: seq<Byte>, maxWasm: nat)
    returns (ok: bool, f: Fields, ghost p: Progress, ghost rest: seq<Byte>)
    ensures Reached(t, data, keyId, maxWasm, p, rest) && (ok <==> IsComplete(p))
    ensures ok ==> NamesKept(f, data, p.half.n) && f.head == p.h
  {
    var json := new Json(data);
    var h;
    f, p, rest := NO_FIELDS, NoHead, [];
    ghost var whole := json.Window();
    assert whole == data;
    ok, h := json.TakeHead(t, maxWasm);
    if ok {
      ghost var more, half := json.Window(), NoNames;
      ok, f, half, rest := FinishManifest(t, json, h, keyId);
      p := After(h, more, half);
    }
  }

  /** The manifest of a package for the given key and payload limit, as the device reads it. */
  method ParseManifest(t: Table, data: seq<Byte>, keyId: seq<Byte>, maxWasm: nat) returns (ok: bool, f: Fields)
    ensures ok <==> ManifestAccepted(t, data, keyId, maxWasm)
    ensures ok ==> Describes(f, data, Parse(t, data).value.record)
  {
    ghost var p, rest;
    ok, f, p, rest := TakeManifest(t, data, keyId, maxWasm);
    if ok {
      Accepts(t, data, keyId, maxWasm, p.h, p.more, p.half.n, f);
    } else {
      Refuses(t, data, keyId, maxWasm, p, rest);
    }
  }

  lemma NamesDescribe(f: Fields, data: seq<Byte>, h: Head, n: Names)
    requires NamesKept(f, data, n) && f.head == h
    ensures Describes(f, data, Join(h, n).record)
  {
  }

  function AddCapability(mask: Bits, unknown: bool, id: seq<Byte>): (Bits, bool) {
    match CapabilityNamed(id)
    case None => (mask, true)
    case Some(c) => (mask + {CapabilityBit(c)}, unknown)
  }

  lemma MaskStep(list: seq<seq<Byte>>, id: seq<Byte>)
    ensures AddCapability(Mask(list), HasUnknown(list), id) == (Mask(list + [id]), HasUnknown(list + [id]))
  {
    LastItem(list, id);
    var whole := list + [id];
    assert HasUnknown(whole) <==> HasUnknown(list) || CapabilityNamed(id).None?;
  }

  lemma LastItem(list: seq<seq<Byte>>, id: seq<Byte>)
    ensures (list + [id])[..|list + [id]| - 1] == list && (list + [id])[|list + [id]| - 1] == id
  {
  }

  /** The sign of the first difference among n bytes. */
  function Compare(a: seq<Byte>, b: seq<Byte>, n: nat): int
    requires n <= |a| && n <= |b|
  {
    if n == 0 then 0 else if a[0] != b[0] then a[0] as int - b[0] as int else Compare(a[1..], b[1..], n - 1)
  }

  /** The device's order: the common part decides, then the length. */
  predicate ComesBefore(previous: seq<Byte>, current: seq<Byte>) {
    var common := if |previous| < |current| then |previous| else |current|;
    var comparison := Compare(previous, current, common);
    !(comparison > 0 || (comparison == 0 && |previous| >= |current|))
  }

  lemma {:induction false} ComesBeforeIsLess(a: seq<Byte>, b: seq<Byte>)
    ensures ComesBefore(a, b) <==> Less(a, b)
  {
    if a != [] && b != [] && a[0] == b[0] {
      ComesBeforeIsLess(a[1..], b[1..]);
    }
  }

  /** The list read is the items so far and the rest in the window. */
  predicate ItemsPending(item: Manifest.Reader, all: Read<ItemList>, list: seq<seq<Byte>>, window: seq<Byte>) {
    |list| <= CAPABILITIES_MAX &&
    all == PrependItems(list, Items(item, window, Last(list), CAPABILITIES_MAX - |list|))
  }

  function Last(list: seq<seq<Byte>>): Option<seq<Byte>> {
    if list == [] then None else Some(list[|list| - 1])
  }

  function PrependItems(list: seq<seq<Byte>>, r: Read<ItemList>): Read<ItemList> {
    match r case Fail => Fail case Got(l, rest) => Got(ItemList(list + l.list, l.trailing), rest)
  }

  lemma QuotedIdParts(s: seq<Byte>, rest: seq<Byte>)
    requires Literal(s, [QUOTE]) == Got((), rest)
    ensures var n := IdCount(rest);
            QuotedId(s) == if !Identifier(rest[..n]) then Fail
                           else match Literal(rest[n..], [QUOTE]) case Fail => Fail
                             case Got(_, more) => Got(rest[..n], more)
  {
    var n := IdCount(rest);
    assert s == [QUOTE] + rest;
    assert s[1..] == rest;
    assert s[1..1 + n] == s[1..][..n];
    assert s[1 + n..] == s[1..][n..];
    var tail := rest[n..];
    assert tail != [] && tail[0] == QUOTE <==> [QUOTE] <= tail;
  }

  /** Two hyphens together, or one in front, spoil the identifier. */
  lemma BadHyphen(rest: seq<Byte>, n: nat)
    requires n < |rest| && rest[n] == HYPHEN
    requires forall i | 0 <= i < n :: IdByte(rest[i])
    requires n == 0 || rest[n - 1] == HYPHEN
    ensures !Identifier(rest[..IdCount(rest)])
  {
    var k := IdCount(rest);
    assert k > n;
    assert rest[..k][n] == HYPHEN && (n > 0 ==> rest[..k][n - 1] == HYPHEN);
  }

  lemma IdCountIs(s: seq<Byte>, n: nat)
    requires n <= |s| && (forall i | 0 <= i < n :: IdByte(s[i])) && (n < |s| ==> !IdByte(s[n]))
    ensures IdCount(s) == n
  {
    IdCountOf(s[..n], s[n..]);
    assert s == s[..n] + s[n..];
  }

  lemma {:induction false} HexLength(s: seq<Byte>, n: nat)
    ensures HexBytes(s, n).Got? ==> |s| == 2 * n + |HexBytes(s, n).rest|
    decreases n
  {
    if n > 0 && HexByte(s).Got? {
      HexLength(HexByte(s).rest, n - 1);
    }
  }

  /** The 32 bytes are those read so far and the rest in the window. */
  predicate HexPending(all: Read<seq<Byte>>, done: seq<Byte>, window: seq<Byte>) {
    |done| <= 32 &&
    all == match HexBytes(window, 32 - |done|) case Fail => Fail case Got(l, rest) => Got(done + l, rest)
  }

  lemma HexStart(s: seq<Byte>)
    ensures HexPending(HexBytes(s, 32), [], s)
  {
    var none: seq<Byte>, r := [], HexBytes(s, 32);
    if r.Got? {
      assert none + r.value == r.value;
    }
    assert 32 - |none| == 32;
    assert HexPending(r, none, s);
  }

  lemma HexStep(all: Read<seq<Byte>>, done: seq<Byte>, window: seq<Byte>)
    requires HexPending(all, done, window)
    ensures |done| == 32 ==> all == Got(done, window)
    ensures |done| < 32 && HexByte(window).Fail? ==> all.Fail?
    ensures |done| < 32 && HexByte(window).Got? ==>
              HexPending(all, done + [HexByte(window).value], HexByte(window).rest)
  {
    assert done + [] == done;
    if |done| < 32 && HexByte(window).Got? {
      var b, tail := HexByte(window).value, HexBytes(HexByte(window).rest, 32 - |done| - 1);
      if tail.Got? {
        assert done + ([b] + tail.value) == done + [b] + tail.value;
      }
    }
  }

  lemma {:induction false} DigitCountIs(s: seq<Byte>, n: nat)
    requires n <= |s| && Digits(s[..n]) && (n < |s| ==> !IsDigit(s[n]))
    ensures DigitCount(s) == n
  {
    DigitCountOf(s[..n], s[n..]);
    assert s == s[..n] + s[n..];
  }

  lemma {:induction false} ValueGrows(d: seq<Byte>, n: nat)
    requires Digits(d) && n <= |d|
    ensures Value(d[..n]) <= Value(d)
    decreases |d|
  {
    if n < |d| {
      ValueGrows(d[..|d| - 1], n);
      assert d[..|d| - 1][..n] == d[..n];
    } else {
      assert d[..n] == d;
    }
  }

  lemma {:induction false} LongNumbersAreLarge(d: seq<Byte>, n: nat)
    requires Canonical(d) && d[0] != ZERO && 0 < n <= |d|
    ensures Value(d[..n]) >= Power10(n - 1)
    decreases n
  {
    var front := d[..n][..n - 1];
    assert d[..n][n - 1] == d[n - 1] && front == d[..n - 1];
    if n > 1 {
      LongNumbersAreLarge(d, n - 1);
    } else {
      assert front == [];
      assert Value(front) == 0;
    }
  }

  lemma {:induction false} CountAtLeast(s: seq<Byte>, n: nat)
    requires n <= |s| && Digits(s[..n])
    ensures DigitCount(s) >= n
    decreases n
  {
    if n > 0 {
      assert s[0] == s[..n][0];
      assert s[1..][..n - 1] == s[..n][1..];
      CountAtLeast(s[1..], n - 1);
    }
  }

  /** Once the digits so far are too many or too much, so are all of them. */
  lemma {:induction false} TooLarge(s: seq<Byte>, digits: nat, allowZero: bool)
    requires 0 < digits <= |s| && Digits(s[..digits])
    requires digits > 10 || Value(s[..digits]) > U32_MAX
    ensures Number(s, allowZero).Fail?
  {
    var d := s[..DigitCount(s)];
    CountAtLeast(s, digits);
    assert d[..digits] == s[..digits];
    ValueGrows(d, digits);
    if Canonical(d) && digits > 10 {
      LongNumbersAreLarge(d, digits);
      assert Power10(10) == 10 * Power10(9) == 100 * Power10(8) == 1000 * Power10(7) == 10000 * Power10(6)
        == 100000 * Power10(5) == 1000000 * Power10(4) == 10000000 * Power10(3) == 100000000 * Power10(2);
      PowerGrows(10, digits - 1);
    }
  }

  lemma {:induction false} PowerGrows(a: nat, b: nat)
    requires a <= b
    ensures Power10(a) <= Power10(b)
    decreases b - a
  {
    if a < b {
      PowerGrows(a + 1, b);
    }
  }

  lemma ItemsStart(item: Manifest.Reader, s: seq<Byte>)
    ensures ItemsPending(item, Items(item, s, None, CAPABILITIES_MAX), [], s)
  {
    var none: seq<seq<Byte>>, r := [], Items(item, s, None, CAPABILITIES_MAX);
    assert PrependItems(none, r) == r by {
      if r.Got? { assert none + r.value.list == r.value.list; }
    }
    assert CAPABILITIES_MAX - |none| == CAPABILITIES_MAX;
    assert ItemsPending(item, r, none, s);
  }

  predicate ItemTaken(item: Manifest.Reader, all: Read<ItemList>, list: seq<seq<Byte>>, r: Read<seq<Byte>>) {
    match r
    case Fail => all.Fail?
    case Got(id, more) =>
      if list != [] && !ComesBefore(list[|list| - 1], id) then all.Fail?
      else if Literal(more, [CLOSE]).Got? then all == Got(ItemList(list + [id], false), Literal(more, [CLOSE]).rest)
      else if Literal(more, [COMMA]).Fail? then all.Fail?
      else ItemsPending(item, all, list + [id], Literal(more, [COMMA]).rest)
  }

  lemma OneByte(s: seq<Byte>, b: Byte)
    ensures Literal(s, [b]) == if s != [] && s[0] == b then Got((), s[1..]) else Fail
  {
    assert s != [] && s[0] == b <==> [b] <= s;
  }

  /** One turn of the loop over the items, in the terms of the literals it tries. */
  lemma ItemsTurn(item: Manifest.Reader, all: Read<ItemList>, list: seq<seq<Byte>>, window: seq<Byte>)
    requires ItemsPending(item, all, list, window)
    requires item([]).Fail?
    ensures |list| == CAPABILITIES_MAX ==> all.Fail?
    ensures |list| < CAPABILITIES_MAX && Literal(window, [CLOSE]).Got? ==>
              all == Got(ItemList(list, list != []), Literal(window, [CLOSE]).rest)
    ensures |list| < CAPABILITIES_MAX && Literal(window, [CLOSE]).Fail? ==> ItemTaken(item, all, list, item(window))
  {
    OneByte(window, CLOSE);
    assert list + [] == list;
    if |list| < CAPABILITIES_MAX && Literal(window, [CLOSE]).Fail? && item(window).Got? {
      var id, more := item(window).value, item(window).rest;
      OneByte(more, CLOSE);
      OneByte(more, COMMA);
      if list != [] {
        ComesBeforeIsLess(list[|list| - 1], id);
      }
      if (list == [] || ComesBefore(list[|list| - 1], id)) && more != [] && more[0] == COMMA {
        ItemsGrow(item, all, list, window, id, more);
      }
    }
  }

  lemma ItemsGrow(
    item: Manifest.Reader, all: Read<ItemList>, list: seq<seq<Byte>>, window: seq<Byte>, id: seq<Byte>, more: seq<Byte>)
    requires ItemsPending(item, all, list, window) && |list| < CAPABILITIES_MAX
    requires window != [] && window[0] != CLOSE && item(window) == Got(id, more)
    requires list == [] || Less(list[|list| - 1], id)
    requires more != [] && more[0] == COMMA
    ensures ItemsPending(item, all, list + [id], more[1..])
  {
    var tail := Items(item, more[1..], Some(id), CAPABILITIES_MAX - |list| - 1);
    assert Last(list + [id]) == Some(id);
    PrependJoin(list, id, tail);
    assert CAPABILITIES_MAX - |list + [id]| == CAPABILITIES_MAX - |list| - 1;
    assert all == PrependItems(list + [id], tail);
  }

  lemma PrependJoin(list: seq<seq<Byte>>, id: seq<Byte>, tail: Read<ItemList>)
    ensures PrependItems(list + [id], tail) ==
            PrependItems(list, match tail
                               case Fail => Fail
                               case Got(l, rest) => Got(ItemList([id] + l.list, l.trailing), rest))
  {
    if tail.Got? {
      assert list + ([id] + tail.value.list) == list + [id] + tail.value.list;
    }
  }
}
