/**
 The device's verification of a stored package: one pass over the archive, in pieces of
 at most 512 bytes, every byte read once and in order.
 */
module PackageStream {
  import opened Octets
  import opened Ustar
  import opened ManifestReader
  import WasmFormat
  import Manifest

  datatype Outcome = Ok | Invalid | Untrusted | ReadFailed

  // ------------------------------------------------------------------ headers

  lemma {:induction false} OctalGrows(s: seq<Byte>, n: nat)
    requires OctalDigits(s) && n <= |s|
    ensures OctalValue(s[..n]) <= OctalValue(s)
    decreases |s|
  {
    if n < |s| {
      OctalGrows(s[..|s| - 1], n);
      assert s[..|s| - 1][..n] == s[..n];
    } else {
      assert s[..n] == s;
    }
  }

  /** The size field of a header; the 64-bit accumulator never overflows. */
  method TarSize(header: array<Byte>) returns (size: Option<U32>)
    requires header.Length == BLOCK
    ensures size == SizeField(header[..])
  {
    var value: nat := 0;
    ghost var field := header[..][124..135];
    for index := 124 to 135
      invariant OctalDigits(field[..index - 124]) && value == OctalValue(field[..index - 124]) && value <= U32_MAX
    {
      var byte := header[index];
      ghost var done := index - 124;
      assert field[done] == byte;
      if byte < 0x30 || byte > 0x37 {
        return None;
      }
      assert field[..done + 1][..done] == field[..done];
      assert value * 8 + 7 < 0x1_0000_0000_0000_0000;
      value := value * 8 + (byte - 0x30);
      if value > U32_MAX {
        if OctalDigits(field) {
          OctalGrows(field, done + 1);
        }
        return None;
      }
    }
    assert field[..11] == field;
    return if header[135] != 0 then None else Some(value);
  }

  lemma OctalStep(v: nat, digits: nat, done: seq<Byte>)
    requires digits > 0
    ensures Octal(v, digits) + done == Octal(v / 8, digits - 1) + ([0x30 + v % 8] + done)
    ensures v < Power8(digits) <==> v / 8 < Power8(digits - 1)
  {
  }

  /** Writes digits from the last to the first; what remains of the number tells whether it fits. */
  method TarOctal(destination: array<Byte>, offset: nat, digits: nat, number: U32) returns (fits: bool)
    requires offset + digits < destination.Length
    modifies destination
    ensures destination[offset..offset + digits] == Octal(number, digits) && destination[offset + digits] == 0
    ensures forall i | 0 <= i < destination.Length && !(offset <= i <= offset + digits) ::
              destination[i] == old(destination[i])
    ensures fits <==> number < Power8(digits)
  {
    var rest: nat, index := number, digits;
    while index != 0
      invariant 0 <= index <= digits
      invariant Octal(number, digits) == Octal(rest, index) + destination[offset + index..offset + digits]
      invariant number < Power8(digits) <==> rest < Power8(index)
      invariant forall i | 0 <= i < destination.Length && !(offset + index <= i < offset + digits) ::
                  destination[i] == old(destination[i])
    {
      ghost var done := destination[offset + index..offset + digits];
      OctalStep(rest, index, done);
      destination[offset + index - 1] := 0x30 + rest % 8;
      assert destination[offset + index - 1..offset + digits] == [0x30 + rest % 8] + done;
      rest := rest / 8;
      index := index - 1;
    }
    assert Octal(rest, 0) == [];
    assert destination[offset..offset + digits] == Octal(number, digits);
    destination[offset + digits] := 0;
    assert destination[offset..offset + digits] == Octal(number, digits);
    fits := rest == 0;
  }

  method Copy(destination: array<Byte>, offset: nat, source: seq<Byte>)
    requires offset + |source| <= destination.Length
    modifies destination
    ensures forall i | 0 <= i < destination.Length ::
              destination[i] == if offset <= i < offset + |source| then source[i - offset] else old(destination[i])
  {
    for k := 0 to |source|
      invariant forall i | 0 <= i < destination.Length ::
                  destination[i] == if offset <= i < offset + k then source[i - offset] else old(destination[i])
    {
      destination[offset + k] := source[k];
    }
  }

  method SumOf(a: array<Byte>) returns (sum: nat)
    ensures sum == Sum(a[..])
  {
    sum := 0;
    for i := 0 to a.Length
      invariant sum == Sum(a[..i])
    {
      assert a[..i + 1][..i] == a[..i];
      sum := sum + a[i];
    }
    assert a[..a.Length] == a[..];
  }

  /** Everything of the expected header but its checksum. */
  method FillHeader(expected: array<Byte>, name: Name, size: U32) returns (fits: bool)
    requires expected.Length == BLOCK && forall i | 0 <= i < BLOCK :: expected[i] == 0
    modifies expected
    ensures fits && expected[..] == HeaderWith(name, size, BLANK)
  {
    Copy(expected, 0, name);
    Copy(expected, 100, MODE);
    Copy(expected, 108, Fill(7, 0x30));
    Copy(expected, 116, Fill(7, 0x30));
    FieldsSuffice();
    fits := TarOctal(expected, 124, 11, size);
    assert forall i | 0 <= i < 11 :: expected[124 + i] == expected[124..135][i];
    Copy(expected, 136, Fill(11, 0x30));
    Copy(expected, 148, BLANK);
    expected[156] := 0x30;
    Copy(expected, 257, MAGIC);
    Copy(expected, 263, Fill(2, 0x30));
    assert forall i | 0 <= i < BLOCK :: expected[i] == HeaderByte(name, size, BLANK, i);
  }

  /** Builds the canonical header of a member and compares. */
  method TarHeaderMatches(actual: array<Byte>, name: Name, size: U32) returns (matches: bool)
    requires actual.Length == BLOCK
    ensures matches <==> actual[..] == Header(name, size)
  {
    var expected := new Byte[BLOCK](_ => 0);
    var fits := FillHeader(expected, name, size);
    if !fits {
      return false;
    }
    var checksum := SumOf(expected);
    FieldsSuffice();
    fits := TarOctal(expected, 148, 6, checksum);
    if !fits {
      return false;
    }
    assert forall i | 0 <= i < 6 :: expected[148 + i] == expected[148..154][i];
    expected[155] := 0x20;
    assert expected[..] == Header(name, size);
    matches := actual[..] == expected[..];
  }

  // ------------------------------------------------------------------ the stream

  datatype Piece = Piece(offset: nat, size: nat)

  /** The pieces follow each other from the start up to n, each of at most one block. */
  predicate InOrder(pieces: seq<Piece>, n: nat) {
    if pieces == [] then n == 0
    else
      var last := pieces[|pieces| - 1];
      && last.offset + last.size == n && last.size <= BLOCK && InOrder(pieces[..|pieces| - 1], last.offset)
  }

  lemma SliceJoin(p: seq<Byte>, a: nat, b: nat, c: nat)
    requires a <= b <= c <= |p|
    ensures p[a..b] + p[b..c] == p[a..c]
  {
  }

  method StartsZero(block: array<Byte>, amount: nat) returns (zero: bool)
    requires amount <= block.Length
    ensures zero <==> AllZero(block[0..amount])
  {
    for index := 0 to amount
      invariant forall i | 0 <= i < index :: block[i] == 0
    {
      if block[index] != 0 {
        assert block[0..amount][index] != 0;
        return false;
      }
    }
    return true;
  }

  class Stream {
    const package: seq<Byte>
    const faultFree: bool
    var cursor: nat
    var absorbed: seq<Byte>
    ghost var pieces: seq<Piece>
    ghost var reached: nat

    constructor (package: seq<Byte>, faultFree: bool)
      ensures this.package == package && this.faultFree == faultFree && Valid() && cursor == 0
    {
      this.package := package;
      this.faultFree := faultFree;
      cursor, absorbed := 0, [];
      pieces, reached := [], 0;
    }

    /** What has been asked for so far; also true after a failure. */
    ghost predicate Ordered()
      reads this
    {
      reached <= |package| && InOrder(pieces, reached)
    }

    ghost predicate Valid()
      reads this
    {
      Ordered() && reached == cursor && absorbed == package[..cursor]
    }

    ghost function Window(): seq<Byte>
      reads this
      requires Valid()
    {
      package[cursor..]
    }

    method Ready() returns (ok: bool)
      ensures faultFree ==> ok
    {
      ok := *;
      ok := ok || faultFree;
    }

    /** Asks for the next bytes, and adds them to the digest of the whole package. */
    method Read(destination: array<Byte>, start: nat, amount: nat) returns (o: Outcome)
      requires Valid() && start + amount <= destination.Length
      modifies this, destination
      ensures Ordered() && (o == Ok ==> Valid()) && o != Untrusted && (o == ReadFailed ==> !faultFree)
      ensures o == Ok ==>
                && cursor == old(cursor) + amount <= |package|
                && destination[start..start + amount] == package[old(cursor)..cursor]
      ensures forall i | 0 <= i < destination.Length && !(start <= i < start + amount) ::
                destination[i] == old(destination[i])
      ensures faultFree && amount <= BLOCK && old(cursor) + amount <= |package| ==> o == Ok
    {
      if amount > BLOCK || amount > |package| - cursor {
        return Invalid;
      }
      pieces, reached := pieces + [Piece(cursor, amount)], cursor + amount;
      assert pieces[..|pieces| - 1] == old(pieces);
      var ok: bool := *;
      ok := ok || faultFree;
      if !ok {
        for i := start to start + amount
          invariant forall k | 0 <= k < destination.Length && !(start <= k < start + amount) ::
                      destination[k] == old(destination[k])
          modifies destination
        {
          var b: Byte := *;
          destination[i] := b;
        }
        return ReadFailed;
      }
      forall i | start <= i < start + amount {
        destination[i] := package[cursor + (i - start)];
      }
      assert destination[start..start + amount] == package[cursor..cursor + amount];
      ok := Ready();
      if !ok {
        return Invalid;
      }
      SliceJoin(package, 0, cursor, cursor + amount);
      absorbed := absorbed + destination[start..start + amount];
      cursor := cursor + amount;
      return Ok;
    }

    /** A run of bytes, block by block. */
    method ReadBytes(destination: array<Byte>, size: nat) returns (o: Outcome)
      requires Valid() && size <= destination.Length
      modifies this, destination
      ensures Ordered() && (o == Ok ==> Valid()) && o != Untrusted && (o == ReadFailed ==> !faultFree)
      ensures o == Ok ==> cursor == old(cursor) + size <= |package|
      ensures o == Ok ==> destination[..size] == package[old(cursor)..cursor]
      ensures faultFree && old(cursor) + size <= |package| ==> o == Ok
    {
      var offset := 0;
      while offset < size
        invariant Valid() && offset <= size && cursor == old(cursor) + offset
        invariant cursor <= |package| && destination[..offset] == package[old(cursor)..cursor]
      {
        var amount := if size - offset < BLOCK then size - offset else BLOCK;
        ghost var before, at := destination[..offset], cursor;
        o := Read(destination, offset, amount);
        if o != Ok {
          return;
        }
        assert destination[..offset] == before;
        assert destination[..offset + amount] == destination[..offset] + destination[offset..offset + amount];
        SliceJoin(package, old(cursor), at, cursor);
        offset := offset + amount;
      }
      return Ok;
    }

    /** A run of zeros, block by block. */
    method ReadZeros(block: array<Byte>, size: nat) returns (o: Outcome)
      requires Valid() && block.Length == BLOCK
      modifies this, block
      ensures Ordered() && (o == Ok ==> Valid()) && o != Untrusted && (o == ReadFailed ==> !faultFree)
      ensures o == Ok ==> cursor == old(cursor) + size <= |package| && AllZero(package[old(cursor)..cursor])
      ensures faultFree && old(cursor) + size <= |package| && AllZero(package[old(cursor)..old(cursor) + size]) ==>
                o == Ok
    {
      var rest: nat := size;
      ghost var begin, end := cursor, cursor + size;
      while rest != 0
        invariant Valid() && begin <= cursor <= |package| && cursor + rest == end
        invariant AllZero(package[begin..cursor])
      {
        var amount := if rest < BLOCK then rest else BLOCK;
        ghost var at := cursor;
        o := Read(block, 0, amount);
        if o != Ok {
          return;
        }
        ZeroJoin(package, begin, at, cursor);
        var zero := StartsZero(block, amount);
        if !zero {
          if end <= |package| {
            ZeroJoin(package, begin, cursor, end);
          }
          return Invalid;
        }
        rest := rest - amount;
      }
      return Ok;
    }

    method ReadHeader(block: array<Byte>, name: Name) returns (o: Outcome, size: U32)
      requires Valid() && block.Length == BLOCK
      modifies this, block
      ensures Ordered() && (o == Ok ==> Valid()) && o != Untrusted && (o == ReadFailed ==> !faultFree)
      ensures o == Ok ==> cursor == old(cursor) + BLOCK <= |package| && HeaderAt(old(Window()), name) == Some(size)
      ensures faultFree && HeaderAt(old(Window()), name).Some? ==> o == Ok
    {
      ghost var s := Window();
      size := 0;
      o := Read(block, 0, BLOCK);
      if o != Ok {
        return;
      }
      assert block[..] == block[0..BLOCK] == s[..BLOCK];
      var stated := TarSize(block);
      if stated.None? {
        return Invalid, 0;
      }
      size := stated.value;
      var matches := TarHeaderMatches(block, name, size);
      o := if matches then Ok else Invalid;
    }
  }

  /** The size stated by the canonical header in front, if there is one. */
  function HeaderAt(s: seq<Byte>, name: Name): Option<U32> {
    if |s| < BLOCK || SizeField(s[..BLOCK]).None? then None
    else
      var n := SizeField(s[..BLOCK]).value;
      if s[..BLOCK] != Header(name, n) then None else Some(n)
  }

  lemma MemberByHeader(s: seq<Byte>, name: Name)
    ensures ReadMember(s, name) == match HeaderAt(s, name) case None => Fail case Some(n) => ReadBody(s[BLOCK..], n)
  {
  }

  // ------------------------------------------------------------------ members

  /** A member in the middle of the package, by the offsets of its data and of what follows. */
  lemma MemberAtOffset(p: seq<Byte>, at: nat, name: Name, begin: nat, end: nat, next: nat)
    requires at <= |p| && HeaderAt(p[at..], name).Some?
    requires begin == at + BLOCK && end == begin + HeaderAt(p[at..], name).value && next == end + Pad(end - begin)
    ensures begin <= |p| && ReadMember(p[at..], name) ==
                            if next <= |p| && AllZero(p[end..next]) then Got(p[begin..end], p[next..]) else Fail
  {
    var n := HeaderAt(p[at..], name).value;
    MemberByHeader(p[at..], name);
    RestOfRest(p, at, BLOCK);
    if next <= |p| {
      SliceOfRest(p, begin, n, n + Pad(n));
      SliceOfRest(p, begin, 0, n);
      RestOfRest(p, begin, n + Pad(n));
    }
  }

  /** A member of bounded size: header, data and padding. */
  method TakeMember(stream: Stream, block: array<Byte>, destination: array<Byte>, name: Name, least: nat, most: nat)
    returns (o: Outcome, size: U32)
    requires stream.Valid() && block.Length == BLOCK && most <= destination.Length && block != destination
    modifies stream, block, destination
    ensures stream.Ordered() && (o == Ok ==> stream.Valid()) && o != Untrusted
            && (o == ReadFailed ==> !stream.faultFree)
    ensures o == Ok ==> least <= size <= most
    ensures o == Ok ==> ReadMember(old(stream.Window()), name) == Got(destination[..size], stream.Window())
    ensures var r := ReadMember(old(stream.Window()), name);
            stream.faultFree && r.Got? && least <= |r.value| <= most ==> o == Ok
  {
    ghost var at := stream.cursor;
    MemberByHeader(stream.Window(), name);
    o, size := stream.ReadHeader(block, name);
    if o != Ok {
      return;
    }
    ghost var begin := stream.cursor;
    ghost var end := begin + size;
    ghost var next := end + Pad(size);
    MemberAtOffset(stream.package, at, name, begin, end, next);
    if size < least || size > most {
      return Invalid, size;
    }
    o := stream.ReadBytes(destination, size);
    if o != Ok {
      return;
    }
    assert stream.cursor == end;
    ghost var data := destination[..size];
    o := stream.ReadZeros(block, Pad(size));
    assert destination[..size] == data;
    assert o == Ok ==> stream.cursor == next;
  }

  /** Data of that size lies there, with zeros up to the block. */
  predicate PaddedAt(p: seq<Byte>, begin: nat, size: nat) {
    begin + size + Pad(size) <= |p| && AllZero(p[begin + size..begin + size + Pad(size)])
  }

  /** A member whose header has been read. */
  lemma MemberBehind(p: seq<Byte>, at: nat, name: Name, n: U32)
    requires at + BLOCK <= |p| && HeaderAt(p[at..], name) == Some(n)
    ensures ReadMember(p[at..], name) == Behind(p, at + BLOCK, n)
  {
    MemberAtOffset(p, at, name, at + BLOCK, at + BLOCK + n, at + BLOCK + n + Pad(n));
  }

  /** With the header read, the member is decided by what lies behind it. */
  lemma HeaderDecides(p: seq<Byte>, at: nat, name: Name)
    requires at <= |p| && HeaderAt(p[at..], name).None?
    ensures ReadMember(p[at..], name).Fail?
  {
    MemberByHeader(p[at..], name);
  }

  /** The payload: its size, its first eight bytes and its digest are checked on the way. */
  method TakeWasm(stream: Stream, block: array<Byte>, expected: Manifest.Payload, maxWasm: nat, h: Hash)
    returns (o: Outcome, place: Slice)
    requires stream.Valid() && block.Length == BLOCK
    modifies stream, block
    ensures stream.Ordered() && (o == Ok ==> stream.Valid()) && o != Untrusted
            && (o == ReadFailed ==> !stream.faultFree)
    ensures o == Ok ==> Within(place, stream.package) && WasmFits(At(place, stream.package), expected, maxWasm, h)
    ensures o == Ok ==>
              ReadMember(old(stream.Window()), WASM_NAME) == Got(At(place, stream.package), stream.Window())
    ensures var r := ReadMember(old(stream.Window()), WASM_NAME);
            stream.faultFree && r.Got? && WasmFits(r.value, expected, maxWasm, h) ==> o == Ok
  {
    ghost var p, at := stream.package, stream.cursor;
    ghost var r := ReadMember(p[at..], WASM_NAME);
    var size;
    place := Slice(0, 0);
    if HeaderAt(p[at..], WASM_NAME).None? {
      HeaderDecides(p, at, WASM_NAME);
    }
    o, size := stream.ReadHeader(block, WASM_NAME);
    if o != Ok {
      return;
    }
    MemberBehind(p, at, WASM_NAME, size);
    o, place := TakeData(stream, block, size, expected, maxWasm, h, r);
  }

  /** The member behind its header, if its bytes and their padding are there. */
  function Behind(p: seq<Byte>, begin: nat, size: nat): Read<seq<Byte>> {
    if PaddedAt(p, begin, size) then Got(p[begin..begin + size], p[begin + size + Pad(size)..]) else Fail
  }

  /** The bytes the header announced, and their padding. */
  method TakeData(
    stream: Stream, block: array<Byte>, size: nat, expected: Manifest.Payload, maxWasm: nat, h: Hash,
    ghost r: Read<seq<Byte>>)
    returns (o: Outcome, place: Slice)
    requires stream.Valid() && block.Length == BLOCK && r == Behind(stream.package, stream.cursor, size)
    modifies stream, block
    ensures stream.Ordered() && (o == Ok ==> stream.Valid()) && o != Untrusted
            && (o == ReadFailed ==> !stream.faultFree)
    ensures o == Ok ==>
              && Within(place, stream.package) && r == Got(At(place, stream.package), stream.Window())
              && WasmFits(At(place, stream.package), expected, maxWasm, h)
    ensures stream.faultFree && r.Got? && WasmFits(r.value, expected, maxWasm, h) ==> o == Ok
  {
    place := Slice(stream.cursor, size);
    if size != expected.size || size < 8 || size > maxWasm {
      return Invalid, place;
    }
    o := TakePayload(stream, block, size, expected.digest, h);
    if o == Ok {
      assert At(place, stream.package) == stream.package[old(stream.cursor)..stream.cursor];
      o := stream.ReadZeros(block, Pad(size));
    }
  }

  predicate WasmFits(wasm: seq<Byte>, expected: Manifest.Payload, maxWasm: nat, h: Hash) {
    |wasm| == expected.size && 8 <= |wasm| <= maxWasm && wasm[..8] == WasmFormat.HEADER && h(wasm) == expected.digest
  }

  method TakePayload(stream: Stream, block: array<Byte>, size: nat, expected: Digest, h: Hash) returns (o: Outcome)
    requires stream.Valid() && block.Length == BLOCK && size >= 8
    modifies stream, block
    ensures stream.Ordered() && (o == Ok ==> stream.Valid()) && o != Untrusted
            && (o == ReadFailed ==> !stream.faultFree)
    ensures o == Ok ==>
              && stream.cursor == old(stream.cursor) + size <= |stream.package|
              && PayloadFits(stream.package[old(stream.cursor)..stream.cursor], expected, h)
    ensures stream.faultFree && old(stream.cursor) + size <= |stream.package| ==>
              PayloadFits(stream.package[old(stream.cursor)..old(stream.cursor) + size], expected, h) ==> o == Ok
  {
    var digest: seq<Byte> := [];
    var remaining: nat := size;
    var ready := stream.Ready();
    if !ready {
      return Invalid;
    }
    while remaining != 0
      invariant stream.Valid() && remaining <= size
      invariant stream.cursor == old(stream.cursor) + (size - remaining) <= |stream.package|
      invariant digest == stream.package[old(stream.cursor)..stream.cursor]
      invariant remaining < size ==> |digest| >= 8 && digest[..8] == WasmFormat.HEADER
    {
      var amount := if remaining < BLOCK then remaining else BLOCK;
      ghost var at := stream.cursor;
      o := stream.Read(block, 0, amount);
      if o != Ok {
        return;
      }
      SliceJoin(stream.package, old(stream.cursor), at, stream.cursor);
      assert block[0..amount] == block[..amount];
      FirstEight(digest, block[..amount]);
      if remaining == size {
        assert digest == [] && block[..amount][..8] == block[..8];
        if block[..8] != WasmFormat.HEADER {
          FirstBytes(stream.package, at, amount, size);
          return Invalid;
        }
      }
      ready := stream.Ready();
      if !ready {
        return Invalid;
      }
      digest := digest + block[..amount];
      remaining := remaining - amount;
    }
    ready := stream.Ready();
    o := if ready && h(digest) == expected then Ok else Invalid;
  }

  lemma FirstEight(done: seq<Byte>, more: seq<Byte>)
    ensures |done| >= 8 ==> (done + more)[..8] == done[..8]
    ensures done == [] ==> done + more == more
  {
  }

  lemma FirstBytes(p: seq<Byte>, at: nat, amount: nat, size: nat)
    requires 8 <= amount <= size && at + amount <= |p|
    ensures p[at..at + amount][..8] == p[at..at + 8]
    ensures at + size <= |p| ==> p[at..at + size][..8] == p[at..at + 8]
  {
  }

  predicate PayloadFits(wasm: seq<Byte>, expected: Digest, h: Hash) {
    |wasm| >= 8 && wasm[..8] == WasmFormat.HEADER && h(wasm) == expected
  }

  // ------------------------------------------------------------------ verification

  /** The check of a signature by the trusted key, left uninterpreted. */
  type Signed = (seq<Byte>, seq<Byte>) -> bool

  const KEY_MAX: nat := 1024

  /** The arguments the verification accepts at all. */
  predicate ArgumentsAllowed(size: nat, keySize: nat, maxWasm: nat) {
    0 < keySize <= KEY_MAX && 8 <= maxWasm <= WASM_MAX && SizeAllowed(size, maxWasm)
  }

  predicate ManifestFits(t: Manifest.Table, data: seq<Byte>, keyId: seq<Byte>, maxWasm: nat) {
    0 < |data| <= MANIFEST_MAX && ManifestAccepted(t, data, keyId, maxWasm)
  }

  predicate SignatureFits(manifest: seq<Byte>, signature: seq<Byte>, signed: Signed) {
    |signature| == SIGNATURE_BYTES && signed(manifest, signature)
  }

  /** A package with an acceptable manifest whose signature, of the right size, the key does not confirm. */
  predicate Forged(t: Manifest.Table, package: seq<Byte>, keyId: seq<Byte>, maxWasm: nat, signed: Signed) {
    var m := ReadMember(package, MANIFEST_NAME);
    m.Got? && ManifestFits(t, m.value, keyId, maxWasm) && BadlySigned(m.value, m.rest, signed)
  }

  predicate BadlySigned(manifest: seq<Byte>, s: seq<Byte>, signed: Signed) {
    var r := ReadMember(s, SIGNATURE_NAME);
    r.Got? && |r.value| == SIGNATURE_BYTES && !signed(manifest, r.value)
  }

  /** The record in an accepted manifest. */
  function RecordOf(t: Manifest.Table, manifest: seq<Byte>): Manifest.Record
    requires Manifest.Parse(t, manifest).Some?
  {
    Manifest.Parse(t, manifest).value.record
  }

  function PayloadOf(t: Manifest.Table, manifest: seq<Byte>): Manifest.Payload
    requires Manifest.Parse(t, manifest).Some?
  {
    Manifest.HeadOf(RecordOf(t, manifest)).payload
  }

  /** What an acceptable package holds. */
  predicate PartsAccepted(t: Manifest.Table, p: Package, keyId: seq<Byte>, maxWasm: nat, signed: Signed, h: Hash) {
    && ManifestFits(t, p.manifest, keyId, maxWasm) && SignatureFits(p.manifest, p.signature, signed)
    && WasmFits(p.wasm, PayloadOf(t, p.manifest), maxWasm, h)
  }

  /** The package is the layout of acceptable parts. */
  predicate Accepted(t: Manifest.Table, package: seq<Byte>, keyId: seq<Byte>, maxWasm: nat, signed: Signed, h: Hash) {
    Split(package).Some? && PartsAccepted(t, Split(package).value, keyId, maxWasm, signed, h)
  }

  datatype PackageInfo = PackageInfo(
    packageSize: nat, manifestSize: nat, fields: Fields, wasm: Slice, packageDigest: Digest)

  const NO_INFO := PackageInfo(0, 0, NO_FIELDS, Slice(0, 0), ZERO_DIGEST)

  method TakeManifest(
    t: Manifest.Table, stream: Stream, block: array<Byte>, manifest: array<Byte>, keyId: seq<Byte>, maxWasm: nat)
    returns (o: Outcome, size: U32, fields: Fields)
    requires stream.Valid() && block.Length == BLOCK && manifest.Length == MANIFEST_MAX && block != manifest
    modifies stream, block, manifest
    ensures stream.Ordered() && (o == Ok ==> stream.Valid()) && o != Untrusted
            && (o == ReadFailed ==> !stream.faultFree)
    ensures o == Ok ==> size <= MANIFEST_MAX && ManifestFits(t, manifest[..size], keyId, maxWasm)
    ensures o == Ok ==> ReadMember(old(stream.Window()), MANIFEST_NAME) == Got(manifest[..size], stream.Window())
    ensures o == Ok ==> Describes(fields, manifest[..size], RecordOf(t, manifest[..size]))
    ensures var r := ReadMember(old(stream.Window()), MANIFEST_NAME);
            stream.faultFree && r.Got? && ManifestFits(t, r.value, keyId, maxWasm) ==> o == Ok
  {
    fields := NO_FIELDS;
    o, size := TakeMember(stream, block, manifest, MANIFEST_NAME, 1, MANIFEST_MAX);
    if o == Ok {
      var accepted;
      accepted, fields := ParseManifest(t, manifest[..size], keyId, maxWasm);
      o := if accepted then Ok else Invalid;
    }
  }

  method TakeSignature(stream: Stream, block: array<Byte>, signature: array<Byte>, manifest: seq<Byte>, signed: Signed)
    returns (o: Outcome)
    requires stream.Valid() && block.Length == BLOCK && signature.Length == SIGNATURE_BYTES && block != signature
    modifies stream, block, signature
    ensures stream.Ordered() && (o == Ok ==> stream.Valid()) && (o == ReadFailed ==> !stream.faultFree)
    ensures o == Ok ==> SignatureFits(manifest, signature[..], signed)
    ensures o == Ok ==> ReadMember(old(stream.Window()), SIGNATURE_NAME) == Got(signature[..], stream.Window())
    ensures var r := ReadMember(old(stream.Window()), SIGNATURE_NAME);
            stream.faultFree && r.Got? && SignatureFits(manifest, r.value, signed) ==> o == Ok
    ensures o == Untrusted ==> BadlySigned(manifest, old(stream.Window()), signed)
    ensures stream.faultFree && BadlySigned(manifest, old(stream.Window()), signed) ==> o == Untrusted
  {
    var size;
    o, size := TakeMember(stream, block, signature, SIGNATURE_NAME, SIGNATURE_BYTES, SIGNATURE_BYTES);
    if o == Ok {
      assert signature[..size] == signature[..];
      o := if signed(manifest, signature[..]) then Ok else Untrusted;
    }
  }

  lemma AcceptedParts(t: Manifest.Table, s: seq<Byte>, keyId: seq<Byte>, maxWasm: nat, signed: Signed, h: Hash)
    requires Accepted(t, s, keyId, maxWasm, signed, h)
    ensures var r := ReadMember(s, MANIFEST_NAME);
            r.Got? && ManifestFits(t, r.value, keyId, maxWasm)
    ensures var r := ReadMember(s, MANIFEST_NAME);
            var q := ReadMember(r.rest, SIGNATURE_NAME);
            q.Got? && SignatureFits(r.value, q.value, signed)
    ensures var r := ReadMember(s, MANIFEST_NAME);
            var w := ReadMember(ReadMember(r.rest, SIGNATURE_NAME).rest, WASM_NAME);
            w.Got? && WasmFits(w.value, PayloadOf(t, r.value), maxWasm, h)
  {
  }

  /** The three members in front, and what is left. */
  predicate PartsRead(s: seq<Byte>, p: Package, s1: seq<Byte>, s2: seq<Byte>, rest: seq<Byte>) {
    && ReadMember(s, MANIFEST_NAME) == Got(p.manifest, s1) && ReadMember(s1, SIGNATURE_NAME) == Got(p.signature, s2)
    && ReadMember(s2, WASM_NAME) == Got(p.wasm, rest)
  }

  /** The three members one after another, each checked before the next is read. */
  method ReadParts(
    t: Manifest.Table, stream: Stream, manifest: array<Byte>, signature: array<Byte>, block: array<Byte>,
    keyId: seq<Byte>, maxWasm: nat, signed: Signed, h: Hash)
    returns (o: Outcome, info: PackageInfo, ghost p: Package, ghost s1: seq<Byte>, ghost s2: seq<Byte>)
    requires stream.Valid() && stream.cursor == 0
    requires manifest.Length == MANIFEST_MAX && signature.Length == SIGNATURE_BYTES && block.Length == BLOCK
    requires manifest != signature && signature != block && manifest != block
    modifies stream, manifest, signature, block
    ensures stream.Ordered() && (o == Ok ==> stream.Valid()) && (o == ReadFailed ==> !stream.faultFree)
    ensures o == Ok ==> PartsRead(stream.package, p, s1, s2, stream.Window())
    ensures o == Ok ==> PartsAccepted(t, p, keyId, maxWasm, signed, h) && KnowsParts(t, info, stream.package, p)
    ensures o == Ok ==> manifest[..info.manifestSize] == p.manifest && signature[..] == p.signature
    ensures stream.faultFree && Accepted(t, stream.package, keyId, maxWasm, signed, h) ==> o == Ok
    ensures o == Untrusted ==> Forged(t, stream.package, keyId, maxWasm, signed)
    ensures stream.faultFree && Forged(t, stream.package, keyId, maxWasm, signed) ==> o == Untrusted
  {
    info, p, s1, s2 := NO_INFO, Package([], [], []), [], [];
    var size, fields, place;
    assert stream.Window() == stream.package;
    if Accepted(t, stream.package, keyId, maxWasm, signed, h) {
      AcceptedParts(t, stream.package, keyId, maxWasm, signed, h);
    }
    o, size, fields := TakeManifest(t, stream, block, manifest, keyId, maxWasm);
    if o != Ok {
      return;
    }
    var data := manifest[..size];
    s1 := stream.Window();
    o := TakeSignature(stream, block, signature, data, signed);
    if o != Ok {
      return;
    }
    s2 := stream.Window();
    ghost var signatureData := signature[..];
    var payload := fields.head.payload;
    o, place := TakeWasm(stream, block, payload, maxWasm, h);
    if o == Ok {
      info := PackageInfo(0, size, fields, place, ZERO_DIGEST);
      p := Assemble(t, stream.package, data, signatureData, s1, s2, stream.Window(), info, keyId, maxWasm, signed, h);
    }
  }

  /** The parts that were read one by one, put together. */
  lemma Assemble(
    t: Manifest.Table, s: seq<Byte>, data: seq<Byte>, signature: seq<Byte>, s1: seq<Byte>, s2: seq<Byte>,
    rest: seq<Byte>, info: PackageInfo, keyId: seq<Byte>, maxWasm: nat, signed: Signed, h: Hash)
    returns (p: Package)
    requires ReadMember(s, MANIFEST_NAME) == Got(data, s1) && ReadMember(s1, SIGNATURE_NAME) == Got(signature, s2)
    requires Within(info.wasm, s) && info.manifestSize == |data|
    requires ReadMember(s2, WASM_NAME) == Got(At(info.wasm, s), rest)
    requires WasmFits(At(info.wasm, s), info.fields.head.payload, maxWasm, h)
    requires ManifestFits(t, data, keyId, maxWasm) && SignatureFits(data, signature, signed)
    requires Describes(info.fields, data, RecordOf(t, data))
    ensures PartsRead(s, p, s1, s2, rest) && PartsAccepted(t, p, keyId, maxWasm, signed, h) && KnowsParts(t, info, s, p)
    ensures p.manifest == data && p.signature == signature
  {
    p := Package(data, signature, At(info.wasm, s));
  }

  predicate KnowsParts(t: Manifest.Table, info: PackageInfo, package: seq<Byte>, p: Package) {
    && info.manifestSize == |p.manifest| && Within(info.wasm, package) && At(info.wasm, package) == p.wasm
    && Manifest.Parse(t, p.manifest).Some? && Describes(info.fields, p.manifest, RecordOf(t, p.manifest))
  }

  lemma MemberLength(s: seq<Byte>, name: Name)
    requires ReadMember(s, name).Got?
    ensures |s| == MemberSize(|ReadMember(s, name).value|) + |ReadMember(s, name).rest|
  {
    MemberIsText(s, name);
  }

  /** What follows the members is zero and ends with the record. */
  predicate Closed(rest: seq<Byte>, size: nat) {
    |rest| <= size && AllZero(rest) && FullSize(size - |rest|) == size
  }

  /** With the three members read, the tail alone decides. */
  lemma TailDecides(s: seq<Byte>, p: Package, s1: seq<Byte>, s2: seq<Byte>, rest: seq<Byte>)
    requires PartsRead(s, p, s1, s2, rest)
    ensures Split(s) == if Closed(rest, |s|) then Some(p) else None
  {
    MemberLength(s, MANIFEST_NAME);
    MemberLength(s1, SIGNATURE_NAME);
    MemberLength(s2, WASM_NAME);
    ClosedIsTail(Used(p), rest, |s|);
  }

  lemma ClosedIsTail(used: nat, rest: seq<Byte>, size: nat)
    requires size == used + |rest|
    ensures Closed(rest, size) <==> AllZero(rest) && |rest| == Tail(used)
  {
    assert size - |rest| == used;
  }

  lemma TailAccepts(
    t: Manifest.Table, s: seq<Byte>, p: Package, s1: seq<Byte>, s2: seq<Byte>, rest: seq<Byte>, keyId: seq<Byte>,
    maxWasm: nat, signed: Signed, h: Hash)
    requires PartsRead(s, p, s1, s2, rest) && PartsAccepted(t, p, keyId, maxWasm, signed, h)
    ensures Accepted(t, s, keyId, maxWasm, signed, h) <==> Closed(rest, |s|)
    ensures Closed(rest, |s|) ==> Split(s) == Some(p)
  {
    TailDecides(s, p, s1, s2, rest);
  }

  /** Two zero blocks and zeros to the end of a full record; then the digest of everything. */
  method ReadTail(stream: Stream, block: array<Byte>, h: Hash) returns (o: Outcome, digest: Digest)
    requires stream.Valid() && block.Length == BLOCK
    modifies stream, block
    ensures stream.Ordered() && (o == Ok ==> stream.Valid()) && o != Untrusted
            && (o == ReadFailed ==> !stream.faultFree)
    ensures o == Ok ==> Closed(old(stream.Window()), |stream.package|)
    ensures stream.faultFree && Closed(old(stream.Window()), |stream.package|) ==> o == Ok
    ensures o == Ok ==> stream.cursor == |stream.package| && digest == h(stream.package)
  {
    digest := ZERO_DIGEST;
    ghost var rest := stream.Window();
    if FullSize(stream.cursor) != |stream.package| {
      return Invalid, digest;
    }
    assert rest == stream.package[stream.cursor..|stream.package|];
    o := stream.ReadZeros(block, |stream.package| - stream.cursor);
    if o != Ok {
      return;
    }
    var ready := stream.Ready();
    if !ready {
      return Invalid, digest;
    }
    assert stream.absorbed == stream.package;
    digest := h(stream.absorbed);
  }

  method Clear(a: array<Byte>)
    modifies a
    ensures AllZero(a[..])
  {
    for i := 0 to a.Length
      invariant forall k | 0 <= k < i :: a[k] == 0
    {
      a[i] := 0;
    }
  }

  /** The three members, and then the tail. */
  method ReadPackage(
    t: Manifest.Table, stream: Stream, manifest: array<Byte>, signature: array<Byte>, block: array<Byte>,
    keyId: seq<Byte>, maxWasm: nat, signed: Signed, h: Hash)
    returns (o: Outcome, info: PackageInfo)
    requires stream.Valid() && stream.cursor == 0
    requires manifest.Length == MANIFEST_MAX && signature.Length == SIGNATURE_BYTES && block.Length == BLOCK
    requires manifest != signature && signature != block && manifest != block
    modifies stream, manifest, signature, block
    ensures stream.Ordered() && (o == ReadFailed ==> !stream.faultFree)
    ensures o == Ok ==> Accepted(t, stream.package, keyId, maxWasm, signed, h)
    ensures stream.faultFree && Accepted(t, stream.package, keyId, maxWasm, signed, h) ==> o == Ok
    ensures o == Untrusted ==> Forged(t, stream.package, keyId, maxWasm, signed)
    ensures stream.faultFree && Forged(t, stream.package, keyId, maxWasm, signed) ==> o == Untrusted
    ensures o == Ok ==>
              && stream.Valid() && stream.cursor == |stream.package|
              && info.packageSize == |stream.package| && info.packageDigest == h(stream.package)
              && KnowsParts(t, info, stream.package, Split(stream.package).value)
              && manifest[..info.manifestSize] == Split(stream.package).value.manifest
  {
    ghost var p, s1, s2;
    o, info, p, s1, s2 := ReadParts(t, stream, manifest, signature, block, keyId, maxWasm, signed, h);
    if o == Ok {
      var digest;
      TailAccepts(t, stream.package, p, s1, s2, stream.Window(), keyId, maxWasm, signed, h);
      o, digest := ReadTail(stream, block, h);
      info := info.(packageSize := |stream.package|, packageDigest := digest);
    }
  }

  /**
   The verification of a stored package. It accepts exactly the layouts of acceptable
   parts that pass the size check, and calls exactly the forged ones untrusted; what it
   then reports is true of the bytes it read. After a refusal nothing of any package is left
   behind, unless the digest could not even be started: then the buffers are as before.
   */
  method Verify(
    t: Manifest.Table, package: seq<Byte>, keySize: nat, keyId: seq<Byte>, maxWasm: nat, signed: Signed, h: Hash,
    faultFree: bool, manifest: array<Byte>, signature: array<Byte>, block: array<Byte>)
    returns (o: Outcome, info: PackageInfo, ghost started: bool, ghost pieces: seq<Piece>, ghost reached: nat)
    requires manifest.Length == MANIFEST_MAX && signature.Length == SIGNATURE_BYTES && block.Length == BLOCK
    requires manifest != signature && signature != block && manifest != block
    modifies manifest, signature, block
    ensures o == Ok ==> ArgumentsAllowed(|package|, keySize, maxWasm) && Accepted(t, package, keyId, maxWasm, signed, h)
    ensures faultFree && ArgumentsAllowed(|package|, keySize, maxWasm)
            && Accepted(t, package, keyId, maxWasm, signed, h) ==>
              o == Ok
    ensures o == Untrusted ==>
              ArgumentsAllowed(|package|, keySize, maxWasm) && Forged(t, package, keyId, maxWasm, signed)
    ensures faultFree && ArgumentsAllowed(|package|, keySize, maxWasm)
            && Forged(t, package, keyId, maxWasm, signed) ==>
              o == Untrusted
    ensures o == Ok ==> info.packageSize == |package| && info.packageDigest == h(package)
    ensures o == Ok ==> KnowsParts(t, info, package, Split(package).value)
    ensures o == Ok ==> manifest[..info.manifestSize] == Split(package).value.manifest
    ensures o != Ok ==> info == NO_INFO
    ensures started ==> ArgumentsAllowed(|package|, keySize, maxWasm)
    ensures faultFree && ArgumentsAllowed(|package|, keySize, maxWasm) ==> started
    ensures started && o != Ok ==> AllZero(manifest[..]) && AllZero(signature[..])
    ensures !started ==>
              && o == Invalid && pieces == [] && manifest[..] == old(manifest[..])
              && signature[..] == old(signature[..]) && block[..] == old(block[..])
    ensures o == ReadFailed ==> !faultFree
    ensures InOrder(pieces, reached) && reached <= |package| && (o == Ok ==> reached == |package|)
  {
    info, started, pieces, reached := NO_INFO, false, [], 0;
    if !ArgumentsAllowed(|package|, keySize, maxWasm) {
      return Invalid, NO_INFO, false, [], 0;
    }
    var stream := new Stream(package, faultFree);
    var ready := stream.Ready();
    started := ready;
    if !ready {
      return Invalid, NO_INFO, false, [], 0;
    }
    o, info := ReadPackage(t, stream, manifest, signature, block, keyId, maxWasm, signed, h);
    pieces, reached := stream.pieces, stream.reached;
    if o != Ok {
      info := NO_INFO;
      Clear(manifest);
      Clear(signature);
    }
  }
}
